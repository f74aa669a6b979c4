/**
  What a command line may look like: the grammar of the shell as trees of what is typed, the items they stand for in
  order, and the commands they mean.
*/
module ShellSyntax {
  import opened ShellGrammar

  /** <file, >file or >>file, the last with + for its sign. */
  datatype Redirection = Redirection(sign: char, file: string)

  /** An argument and the redirections between it and the next. */
  datatype ArgForm = ArgForm(word: string, rs: seq<Redirection>)

  /**
    Arguments and redirections in any order, rs before the first argument; or a line in parentheses and redirections.
  */
  datatype ExecForm = Simple(rs: seq<Redirection>, args: seq<ArgForm>) | Block(line: LineForm, rs: seq<Redirection>)

  datatype PipeForm = Last(e: ExecForm) | Piped(e: ExecForm, rest: PipeForm)

  /** A pipeline with any number of &, and perhaps ; and a line after it. */
  datatype LineForm = End(pipe: PipeForm, amps: nat) | Then(pipe: PipeForm, amps: nat, rest: LineForm)

  // ----- what is typed -----

  function PrintRedirs(rs: seq<Redirection>): seq<Item> {
    if rs == [] then [] else [Symbol(rs[0].sign), Word(rs[0].file)] + PrintRedirs(rs[1..])
  }

  function PrintArgs(args: seq<ArgForm>): seq<Item> {
    if args == [] then [] else [Word(args[0].word)] + (PrintRedirs(args[0].rs) + PrintArgs(args[1..]))
  }

  function PrintExec(e: ExecForm): seq<Item> {
    match e
    case Simple(rs, args) => PrintRedirs(rs) + PrintArgs(args)
    case Block(line, rs) => [Symbol('(')] + (PrintLine(line) + ([Symbol(')')] + PrintRedirs(rs)))
  }

  function PrintPipe(p: PipeForm): seq<Item> {
    match p
    case Last(e) => PrintExec(e)
    case Piped(e, rest) => PrintExec(e) + ([Symbol('|')] + PrintPipe(rest))
  }

  function Amps(n: nat): seq<Item> { seq(n, _ => Symbol('&')) }

  function PrintLine(l: LineForm): seq<Item> {
    match l
    case End(pipe, amps) => PrintPipe(pipe) + Amps(amps)
    case Then(pipe, amps, rest) => PrintPipe(pipe) + (Amps(amps) + ([Symbol(';')] + PrintLine(rest)))
  }

  // ----- what it means -----

  function Meant(rs: seq<Redirection>): seq<Redirect<string>> {
    if rs == [] then [] else [Redirect(rs[0].file, rs[0].sign != '<')] + Meant(rs[1..])
  }

  function WordsOf(args: seq<ArgForm>): seq<string> {
    if args == [] then [] else [args[0].word] + WordsOf(args[1..])
  }

  function RedirsOf(args: seq<ArgForm>): seq<Redirection> {
    if args == [] then [] else args[0].rs + RedirsOf(args[1..])
  }

  function ExecMeans(e: ExecForm): Cmd<string> {
    match e
    case Simple(rs, args) => Wrap(Exec(WordsOf(args)), Meant(rs + RedirsOf(args)))
    case Block(line, rs) => Wrap(LineMeans(line), Meant(rs))
  }

  function PipeMeans(p: PipeForm): Cmd<string> {
    match p
    case Last(e) => ExecMeans(e)
    case Piped(e, rest) => Pipe(ExecMeans(e), PipeMeans(rest))
  }

  function Backs<T>(c: Cmd<T>, n: nat): Cmd<T>
    decreases n
  {
    if n == 0 then c else Backs(Back(c), n - 1)
  }

  function LineMeans(l: LineForm): Cmd<string> {
    match l
    case End(pipe, amps) => Backs(PipeMeans(pipe), amps)
    case Then(pipe, amps, rest) => List(Backs(PipeMeans(pipe), amps), LineMeans(rest))
  }

  // ----- which trees are lines -----

  ghost predicate SignsOk(rs: seq<Redirection>) {
    forall i :: 0 <= i < |rs| ==> rs[i].sign == '<' || rs[i].sign == '>' || rs[i].sign == '+'
  }

  /** Every redirection has its sign, and no command more than nine arguments. */
  ghost predicate ExecOk(e: ExecForm) {
    match e
    case Simple(rs, args) => SignsOk(rs + RedirsOf(args)) && |args| <= 9
    case Block(line, rs) => LineOk(line) && SignsOk(rs)
  }

  ghost predicate PipeOk(p: PipeForm) {
    match p
    case Last(e) => ExecOk(e)
    case Piped(e, rest) => ExecOk(e) && PipeOk(rest)
  }

  ghost predicate LineOk(l: LineForm) {
    match l
    case End(pipe, _) => PipeOk(pipe)
    case Then(pipe, _, rest) => PipeOk(pipe) && LineOk(rest)
  }

  // ----- lines as strings -----

  predicate IsBlank(c: char) { c == ' ' || c == '\t' || c == '\r' || c == '\n' || c == 11 as char }

  predicate IsSign(c: char) {
    c == '<' || c == '|' || c == '>' || c == '&' || c == ';' || c == '(' || c == ')'
  }

  ghost predicate Blank(w: string) { forall i :: 0 <= i < |w| ==> IsBlank(w[i]) }

  /** A word that can be typed: not empty, no white space, no sign, no NUL. */
  ghost predicate Typable(w: string) {
    w != "" && forall i :: 0 <= i < |w| ==> !IsBlank(w[i]) && !IsSign(w[i]) && w[i] != 0 as char
  }

  ghost predicate ItemOk(item: Item) {
    match item
    case Word(w) => Typable(w)
    case Symbol(c) => IsSign(c) || c == '+'
  }

  ghost predicate ItemsOk(items: seq<Item>) {
    forall i :: 0 <= i < |items| ==> ItemOk(items[i])
  }

  function ItemText(item: Item): string {
    match item
    case Word(w) => w
    case Symbol(c) => if c == '+' then ">>" else [c]
  }

  /** The two may stand side by side without white space: not two words, nor > before another > or >>. */
  predicate MayTouch(a: Item, b: Item) {
    && !(a.Word? && b.Word?)
    && !(a == Symbol('>') && (b == Symbol('>') || b == Symbol('+')))
  }

  /** The items, each followed by its white space. */
  function Typed(items: seq<Item>, gaps: seq<string>): string
    requires |gaps| == |items|
  {
    if items == [] then "" else ItemText(items[0]) + gaps[0] + Typed(items[1..], gaps[1..])
  }

  ghost predicate GapsOk(items: seq<Item>, gaps: seq<string>) {
    && |gaps| == |items|
    && (forall i :: 0 <= i < |gaps| ==> Blank(gaps[i]))
    && (forall i :: 0 <= i < |gaps| - 1 ==> gaps[i] != "" || MayTouch(items[i], items[i + 1]))
  }

  /** s is the line l, with the white space lead before it and gaps after each of its items. */
  ghost predicate IsLine(s: string, l: LineForm, lead: string, gaps: seq<string>) {
    && LineOk(l) && ItemsOk(PrintLine(l)) && Blank(lead) && GapsOk(PrintLine(l), gaps)
    && s == lead + Typed(PrintLine(l), gaps)
  }
}
