/** Down to characters: a string parses exactly when it is a line of the grammar, with whatever white space. */
module ShellLine {
  import opened ShellLex
  import opened ShellGrammar
  import opened ShellSyntax
  import opened ShellRound

  lemma Classes(c: char)
    ensures (IsSpace(c) <==> IsBlank(c)) && (IsSymbol(c) <==> IsSign(c))
    ensures InWord(c) <==> !IsBlank(c) && !IsSign(c)
  {
  }

  /**
    t is what s spells first from i on, white space aside: a sign, the sign for appending, or all characters up to white
    space, a sign or the end.
  */
  ghost predicate Begins(s: string, i: nat, t: Token) {
    && i <= t.q < t.eq <= |s| && (forall k :: i <= k < t.q ==> IsBlank(s[k])) && !IsBlank(s[t.q])
    && if !IsSign(s[t.q]) then
         && t.kind == 'a' && (t.eq < |s| ==> IsBlank(s[t.eq]) || IsSign(s[t.eq]))
         && forall k :: t.q <= k < t.eq ==> !IsBlank(s[k]) && !IsSign(s[k])
       else if s[t.q] == '>' && t.q + 1 < |s| && s[t.q + 1] == '>' then t.kind == '+' && t.eq == t.q + 2
       else t.kind == s[t.q] && t.eq == t.q + 1
  }

  /**
    The tokens from i on are the first one that s spells there and those after it, or none where all is white space.
  */
  lemma {:induction false} TokensAre(s: string, i: nat, ts: seq<Token>)
    requires i <= |s| && NUL !in s && ts == Tokens(s, i)
    ensures ts == [] <==> forall k :: i <= k < |s| ==> IsBlank(s[k])
    ensures ts != [] ==> Begins(s, i, ts[0]) && ts[1..] == Tokens(s, ts[0].eq)
  {
    var j := SkipSpace(s, i);
    forall k | i <= k < j
      ensures IsBlank(s[k])
    {
      assert IsSpace(At(s, k));
      Classes(s[k]);
    }
    if j < |s| {
      var t := TokenAt(s, j);
      Classes(s[j]);
      assert !IsBlank(s[j]);
      forall k | t.kind == 'a' && t.q <= k < t.eq
        ensures !IsBlank(s[k]) && !IsSign(s[k])
      {
        assert InWord(At(s, k));
        Classes(s[k]);
      }
      if t.eq < |s| {
        Classes(s[t.eq]);
      }
    }
  }

  // ----- from items to tokens -----

  lemma {:induction false} SkipToEnd(s: string, i: nat, n: nat)
    requires i <= n <= |s| && (forall k :: i <= k < n ==> InWord(s[k])) && (n < |s| ==> !InWord(s[n]))
    ensures SkipWord(s, i) == n
    decreases n - i
  {
    if i < n {
      SkipToEnd(s, i + 1, n);
    }
  }

  /** The character at n, if there is one, does not belong to the item before it. */
  ghost predicate Stops(item: Item, s: string, n: nat) {
    n < |s| ==> (item.Word? ==> IsBlank(s[n]) || IsSign(s[n])) && (item == Symbol('>') ==> s[n] != '>')
  }

  lemma {:induction false} LexWord(s: string, i: nat, w: string, n: nat)
    requires Typable(w) && n == i + |w| <= |s| && s[i..n] == w && Stops(Word(w), s, n)
    ensures SkipSpace(s, i) == i && !IsSpace(s[i]) && TokenAt(s, i) == Token('a', i, n)
  {
    forall k | i <= k < n
      ensures InWord(s[k])
    {
      assert s[k] == w[k - i];
      Classes(s[k]);
    }
    if n < |s| {
      Classes(s[n]);
    }
    SkipToEnd(s, i, n);
  }

  /** At the start of an item's text, the lexer reads that item. */
  lemma {:induction false} LexItem(s: string, i: nat, item: Item, n: nat)
    requires ItemOk(item) && n == i + |ItemText(item)| <= |s| && s[i..n] == ItemText(item) && Stops(item, s, n)
    ensures i < n && SkipSpace(s, i) == i && !IsSpace(s[i])
    ensures TokenAt(s, i).eq == n && SpellsOne(s, TokenAt(s, i), item)
  {
    if item.Word? {
      LexWord(s, i, item.text, n);
    } else {
      assert s[i] == s[i..n][0];
      Classes(s[i]);
      if item.c == '+' {
        assert s[i + 1] == s[i..n][1];
      }
    }
  }

  lemma {:induction false} SkipBlanks(s: string, i: nat, j: nat)
    requires i <= j <= |s| && forall k :: i <= k < j ==> IsBlank(s[k])
    ensures SkipSpace(s, i) == SkipSpace(s, j) && Tokens(s, i) == Tokens(s, j)
    decreases j - i
  {
    if i < j {
      Classes(s[i]);
      SkipBlanks(s, i + 1, j);
    }
  }

  lemma {:induction false} FirstChar(item: Item)
    requires ItemOk(item)
    ensures ItemText(item) != ""
    ensures if item.Word? then !IsBlank(ItemText(item)[0]) && !IsSign(ItemText(item)[0])
            else ItemText(item)[0] == if item.c == '+' then '>' else item.c
  {
  }

  /** What follows an item stops it: white space, another item that may touch it, or the end. */
  lemma {:induction false} GapStops(items: seq<Item>, gaps: seq<string>, s: string, n: nat)
    requires items != [] && ItemsOk(items) && GapsOk(items, gaps)
    requires n <= |s| && s[n..] == gaps[0] + Typed(items[1..], gaps[1..])
    ensures Stops(items[0], s, n)
  {
    if n < |s| {
      assert s[n] == s[n..][0];
      if gaps[0] != "" {
        assert s[n] == gaps[0][0];
      } else {
        assert items[1..] != [];
        FirstChar(items[1]);
        assert s[n] == ItemText(items[1])[0];
      }
    }
  }

  lemma {:induction false} GapsTail(items: seq<Item>, gaps: seq<string>)
    requires items != [] && ItemsOk(items) && GapsOk(items, gaps)
    ensures ItemsOk(items[1..]) && GapsOk(items[1..], gaps[1..])
  {
    assert forall i :: 0 <= i < |items| - 1 ==> items[1..][i] == items[i + 1] && gaps[1..][i] == gaps[i + 1];
  }

  lemma {:induction false} CutOne(s: string, i: nat, n: nat, j: nat, text: string, gap: string, later: string)
    requires i <= |s| && s[i..] == text + gap + later && n == i + |text| && j == n + |gap|
    ensures j <= |s| && s[i..n] == text && s[n..] == gap + later && s[j..] == later && s[n..j] == gap
    ensures forall k :: n <= k < j ==> s[k] == gap[k - n]
  {
    assert forall k :: i <= k < |s| ==> s[k] == s[i..][k - i];
  }

  lemma {:induction false} LexOne(s: string, i: nat, items: seq<Item>, gaps: seq<string>, n: nat, j: nat)
    requires items != [] && ItemsOk(items) && GapsOk(items, gaps) && i <= |s| && s[i..] == Typed(items, gaps)
    requires n == i + |ItemText(items[0])| && j == n + |gaps[0]|
    ensures i < n <= j <= |s| && s[j..] == Typed(items[1..], gaps[1..]) && !IsSpace(s[i])
    ensures SpellsOne(s, TokenAt(s, i), items[0]) && Tokens(s, i) == [TokenAt(s, i)] + Tokens(s, j)
  {
    CutOne(s, i, n, j, ItemText(items[0]), gaps[0], Typed(items[1..], gaps[1..]));
    GapStops(items, gaps, s, n);
    LexItem(s, i, items[0], n);
    forall k | n <= k < j
      ensures IsBlank(s[k])
    {
      assert s[k] == gaps[0][k - n];
    }
    SkipBlanks(s, n, j);
  }

  lemma {:induction false} SpellsCons(s: string, t: Token, ts: seq<Token>, item: Item, items: seq<Item>)
    requires SpellsOne(s, t, item) && Spells(s, ts, items)
    ensures Spells(s, [t] + ts, [item] + items)
  {
  }

  /** The lexer reads the items, whatever the white space between them. */
  lemma {:induction false} LexTyped(s: string, i: nat, items: seq<Item>, gaps: seq<string>)
    requires ItemsOk(items) && GapsOk(items, gaps) && i <= |s| && s[i..] == Typed(items, gaps)
    ensures Spells(s, Tokens(s, i), items)
    decreases |items|
  {
    if items == [] {
      assert |s[i..]| == 0;
    } else {
      var n := i + |ItemText(items[0])|;
      var j := n + |gaps[0]|;
      LexOne(s, i, items, gaps, n, j);
      GapsTail(items, gaps);
      LexTyped(s, j, items[1..], gaps[1..]);
      SpellsCons(s, TokenAt(s, i), Tokens(s, j), items[0], items[1..]);
      assert items == [items[0]] + items[1..];
    }
  }

  lemma {:induction false} LexLine(s: string, lead: string, items: seq<Item>, gaps: seq<string>)
    requires ItemsOk(items) && GapsOk(items, gaps) && Blank(lead) && s == lead + Typed(items, gaps)
    ensures Spells(s, Tokens(s, 0), items)
  {
    var n := |lead|;
    assert s[n..] == Typed(items, gaps);
    SkipBlanks(s, 0, n);
    LexTyped(s, n, items, gaps);
  }

  /** A line of the grammar parses, with nothing left over, to what it means. */
  lemma {:induction false} LineParses(s: string, l: LineForm, lead: string, gaps: seq<string>)
    requires IsLine(s, l, lead, gaps)
    ensures Gives(ParseAll(Tokens(s, 0)), s, LineMeans(l), [])
  {
    LexLine(s, lead, PrintLine(l), gaps);
    LineRound(s, l, Tokens(s, 0), []);
    assert Tokens(s, 0) + [] == Tokens(s, 0);
  }

  // ----- from tokens to items -----

  /** The item that a token stands for. */
  function ItemOf(s: string, t: Token): Item { if t.kind == 'a' then Word(Text(s, t)) else Symbol(t.kind) }

  lemma {:induction false} TokenItem(s: string, i: nat, t: Token)
    requires i < |s| && !IsSpace(s[i]) && 0 as char !in s && t == TokenAt(s, i)
    ensures ItemOk(ItemOf(s, t)) && ItemText(ItemOf(s, t)) == s[i..t.eq] && SpellsOne(s, t, ItemOf(s, t))
    ensures Stops(ItemOf(s, t), s, t.eq)
  {
    Classes(s[i]);
    if t.kind == 'a' {
      forall k | i <= k < t.eq
        ensures !IsBlank(s[k]) && !IsSign(s[k]) && s[k] != 0 as char
      {
        assert InWord(At(s, k));
        Classes(s[k]);
      }
      if t.eq < |s| {
        Classes(s[t.eq]);
      }
    } else if t.kind == '+' {
      assert s[i..t.eq] == ">>";
    } else {
      assert s[i..t.eq] == [s[i]];
    }
  }

  lemma {:induction false} Touch(s: string, n: nat, a: Item, b: Item)
    requires n < |s| && Stops(a, s, n) && ItemOk(a) && ItemOk(b)
    requires s[n] == (if ItemText(b) == "" then 'a' else ItemText(b)[0])
    ensures MayTouch(a, b)
  {
    FirstChar(b);
  }

  lemma {:induction false} TypedFrom(s: string, i: nat, j: nat, n: nat, item: Item, gap: string, later: seq<Item>,
                                     rest: seq<string>)
    requires i <= j <= n <= |s| && |rest| == |later| && ItemText(item) == s[j..n] && s[n..] == gap + Typed(later, rest)
    ensures s[i..] == s[i..j] + Typed([item] + later, [gap] + rest)
  {
    assert ([item] + later)[1..] == later && ([gap] + rest)[1..] == rest;
    assert Typed([item] + later, [gap] + rest) == s[j..n] + gap + Typed(later, rest);
    assert s[j..] == s[j..n] + s[n..];
    assert s[i..] == s[i..j] + s[j..];
  }

  lemma {:induction false} GapsCons(s: string, n: nat, item: Item, gap: string, later: seq<Item>, rest: seq<string>)
    requires n <= |s| && ItemOk(item) && Stops(item, s, n) && Blank(gap)
    requires ItemsOk(later) && GapsOk(later, rest) && s[n..] == gap + Typed(later, rest)
    ensures ItemsOk([item] + later) && GapsOk([item] + later, [gap] + rest)
  {
    var items, gaps := [item] + later, [gap] + rest;
    if gap == "" && later != [] {
      FirstChar(later[0]);
      assert s[n] == s[n..][0] == ItemText(later[0])[0];
      Touch(s, n, item, later[0]);
    }
    forall k | 0 <= k < |gaps| - 1
      ensures gaps[k] != "" || MayTouch(items[k], items[k + 1])
    {
      assert k > 0 ==> gaps[k] == rest[k - 1] && items[k] == later[k - 1] && items[k + 1] == later[k];
    }
  }

  lemma {:induction false} LeadBlank(s: string, i: nat, j: nat)
    requires i <= |s| && j == SkipSpace(s, i)
    ensures Blank(s[i..j])
  {
    forall k | i <= k < j
      ensures IsBlank(s[k])
    {
      assert IsSpace(At(s, k));
      Classes(s[k]);
    }
  }

  /** Any text is white space and items, and the lexer reads those items. */
  lemma {:induction false} Unlex(s: string, i: nat) returns (lead: string, items: seq<Item>, gaps: seq<string>)
    requires i <= |s| && 0 as char !in s
    ensures ItemsOk(items) && GapsOk(items, gaps) && Blank(lead) && s[i..] == lead + Typed(items, gaps)
    ensures Spells(s, Tokens(s, i), items)
    decreases |s| - i
  {
    var j := SkipSpace(s, i);
    lead := s[i..j];
    LeadBlank(s, i, j);
    if j == |s| {
      items, gaps := [], [];
    } else {
      var t := TokenAt(s, j);
      var item := ItemOf(s, t);
      TokenItem(s, j, t);
      var gap, later, rest := Unlex(s, t.eq);
      items, gaps := [item] + later, [gap] + rest;
      GapsCons(s, t.eq, item, gap, later, rest);
      SpellsCons(s, t, Tokens(s, t.eq), item, later);
      TypedFrom(s, i, j, t.eq, item, gap, later, rest);
    }
  }

  // ----- the symbols of a line are not words -----

  /** No symbol is taken for a word. */
  ghost predicate NoLetter(items: seq<Item>) { forall i :: 0 <= i < |items| ==> items[i] != Symbol('a') }

  lemma {:induction false} RedirsNoLetter(rs: seq<Redirection>)
    requires SignsOk(rs)
    ensures NoLetter(PrintRedirs(rs))
  {
    if rs != [] {
      RedirsNoLetter(rs[1..]);
    }
  }

  lemma {:induction false} ArgsNoLetter(args: seq<ArgForm>)
    requires SignsOk(RedirsOf(args))
    ensures NoLetter(PrintArgs(args))
  {
    if args != [] {
      SignsSplit(args[0].rs, RedirsOf(args[1..]));
      RedirsNoLetter(args[0].rs);
      ArgsNoLetter(args[1..]);
    }
  }

  lemma {:induction false} ExecNoLetter(e: ExecForm)
    requires ExecOk(e)
    ensures NoLetter(PrintExec(e))
  {
    if e.Simple? {
      SignsSplit(e.rs, RedirsOf(e.args));
      ArgsNoLetter(e.args);
    } else {
      LineNoLetter(e.line);
    }
    RedirsNoLetter(e.rs);
  }

  lemma {:induction false} PipeNoLetter(p: PipeForm)
    requires PipeOk(p)
    ensures NoLetter(PrintPipe(p))
  {
    ExecNoLetter(p.e);
    if p.Piped? {
      PipeNoLetter(p.rest);
    }
  }

  lemma {:induction false} LineNoLetter(l: LineForm)
    requires LineOk(l)
    ensures NoLetter(PrintLine(l))
  {
    PipeNoLetter(l.pipe);
    if l.Then? {
      LineNoLetter(l.rest);
    }
  }

  lemma {:induction false} SameItems(s: string, ts: seq<Token>, a: seq<Item>, b: seq<Item>)
    requires Spells(s, ts, a) && Spells(s, ts, b) && ItemsOk(a) && NoLetter(b)
    ensures a == b
  {
    forall i | 0 <= i < |a|
      ensures a[i] == b[i]
    {
      assert SpellsOne(s, ts[i], a[i]) && SpellsOne(s, ts[i], b[i]);
      assert ItemOk(a[i]) && b[i] != Symbol('a');
    }
  }

  /** parsecmd accepts exactly the lines of the grammar. */
  lemma {:induction false} ParsesIff(s: string)
    requires 0 as char !in s
    ensures ParseAll(Tokens(s, 0)).Ok? <==> exists l, lead, gaps :: IsLine(s, l, lead, gaps)
  {
    if ParseAll(Tokens(s, 0)).Ok? {
      var lead, items, gaps := Unlex(s, 0);
      var ts := Tokens(s, 0);
      var l := ReadLine(s, ts, ParseLine(ts));
      assert ts[..|ts|] == ts;
      LineNoLetter(l);
      SameItems(s, ts, items, PrintLine(l));
      assert s[0..] == s;
      assert IsLine(s, l, lead, gaps);
    }
    if l, lead, gaps :| IsLine(s, l, lead, gaps) {
      LineParses(s, l, lead, gaps);
    }
  }

  lemma {:induction false} WordStops(s: string, i: nat, n: nat)
    requires i <= |s| && n < |Tokens(s, i)| && Tokens(s, i)[n].kind == 'a'
    ensures Tokens(s, i)[n].eq < |s| ==> !InWord(s[Tokens(s, i)[n].eq])
    decreases |s| - i
  {
    var j := SkipSpace(s, i);
    if n > 0 {
      WordStops(s, TokenAt(s, j).eq, n - 1);
    }
  }

  /** A word of a line has no white space and no sign in it, and ends before one of them or with the line. */
  lemma {:induction false} WordsClean(s: string, n: nat)
    requires n < |Tokens(s, 0)| && Tokens(s, 0)[n].kind == 'a'
    ensures var t := Tokens(s, 0)[n];
            && t.q < t.eq <= |s| && (t.eq < |s| ==> IsBlank(s[t.eq]) || IsSign(s[t.eq]))
            && forall k :: t.q <= k < t.eq ==> !IsBlank(s[k]) && !IsSign(s[k])
  {
    var t := Tokens(s, 0)[n];
    TokenBounds(s, 0, n);
    WordStops(s, 0, n);
    forall k | t.q <= k < t.eq
      ensures !IsBlank(s[k]) && !IsSign(s[k])
    {
      assert InWord(At(s, k));
      Classes(s[k]);
    }
    if t.eq < |s| {
      Classes(s[t.eq]);
    }
  }

  // ----- every command can be typed -----

  function AsArgs(args: seq<string>): seq<ArgForm> {
    if args == [] then [] else [ArgForm(args[0], [])] + AsArgs(args[1..])
  }

  /** The last argument with one more redirection after it. */
  function LastWith(args: seq<ArgForm>, r: Redirection): seq<ArgForm>
    requires args != []
  {
    var n := |args| - 1;
    args[..n] + [ArgForm(args[n].word, args[n].rs + [r])]
  }

  /** The same with one more redirection at its end. */
  function WithRedir(e: ExecForm, r: Redirection): ExecForm {
    match e
    case Block(l, rs) => Block(l, rs + [r])
    case Simple(rs, args) => if args == [] then Simple(rs + [r], []) else Simple(rs, LastWith(args, r))
  }

  predicate NeedsParens<T>(c: Cmd<T>) { c.Pipe? || c.Back? || c.List? }

  /** c without its & signs, and how many they are. */
  function Front<T>(c: Cmd<T>): Cmd<T> { if c.Back? then Front(c.cmd) else c }

  function Ands<T>(c: Cmd<T>): nat { if c.Back? then Ands(c.cmd) + 1 else 0 }

  function Size<T>(c: Cmd<T>): nat {
    match c
    case Exec(_) => 0
    case Redir(d, _, _) => Size(d) + 1
    case Pipe(l, r) => Size(l) + Size(r) + 1
    case List(l, r) => Size(l) + Size(r) + 1
    case Back(d) => Size(d) + 1
  }

  lemma {:induction false} FrontSmaller<T>(c: Cmd<T>)
    ensures c.Back? ==> Size(Front(c)) < Size(c)
    ensures !Front(c).Back? && Size(Front(c)) <= Size(c) && Backs(Front(c), Ands(c)) == c
  {
    if c.Back? {
      FrontSmaller(c.cmd);
      BacksNext(Front(c.cmd), Ands(c.cmd));
    }
  }

  ghost function ToExec(c: Cmd<string>): ExecForm
    decreases Size(c), if NeedsParens(c) then 4 else 0
  {
    match c
    case Exec(args) => Simple([], AsArgs(args))
    case Redir(d, f, out) => WithRedir(ToExec(d), Redirection(if out then '>' else '<', f))
    case _ => Block(ToLine(c), [])
  }

  ghost function ToPipe(c: Cmd<string>): PipeForm
    decreases Size(c), if c.Pipe? then 1 else 5
  {
    if c.Pipe? then Piped(ToExec(c.left), ToPipe(c.right)) else Last(ToExec(c))
  }

  ghost function ToLine(c: Cmd<string>): LineForm
    decreases Size(c), if NeedsParens(c) then 3 else 7
  {
    if c.List? then
      FrontSmaller(c.left);
      Then(ToPipe(Front(c.left)), Ands(c.left), ToLine(c.right))
    else
      FrontSmaller(c);
      End(ToPipe(Front(c)), Ands(c))
  }

  ghost predicate WordsOk(c: Cmd<string>) {
    match c
    case Exec(args) => forall i :: 0 <= i < |args| ==> Typable(args[i])
    case Redir(d, f, _) => WordsOk(d) && Typable(f)
    case Pipe(l, r) => WordsOk(l) && WordsOk(r)
    case List(l, r) => WordsOk(l) && WordsOk(r)
    case Back(d) => WordsOk(d)
  }

  lemma {:induction false} AsArgsFacts(args: seq<string>)
    ensures WordsOf(AsArgs(args)) == args && RedirsOf(AsArgs(args)) == [] && |AsArgs(args)| == |args|
    ensures (forall i :: 0 <= i < |args| ==> Typable(args[i])) ==> ItemsOk(PrintArgs(AsArgs(args)))
  {
    if args != [] {
      AsArgsFacts(args[1..]);
      assert args == [args[0]] + args[1..];
      assert PrintArgs(AsArgs(args)) == [Word(args[0])] + PrintArgs(AsArgs(args[1..]));
    }
  }

  lemma {:induction false} RedirsMore(rs: seq<Redirection>, r: Redirection)
    ensures Meant(rs + [r]) == Meant(rs) + [Redirect(r.file, r.sign != '<')]
    ensures PrintRedirs(rs + [r]) == PrintRedirs(rs) + [Symbol(r.sign), Word(r.file)]
  {
    if rs == [] {
      assert rs + [r] == [r];
    } else {
      RedirsMore(rs[1..], r);
      assert (rs + [r])[1..] == rs[1..] + [r];
    }
  }

  lemma {:induction false} LastWithMeans(args: seq<ArgForm>, r: Redirection)
    requires args != []
    ensures WordsOf(LastWith(args, r)) == WordsOf(args) && RedirsOf(LastWith(args, r)) == RedirsOf(args) + [r]
  {
    var more := LastWith(args, r);
    if |args| == 1 {
      assert more[1..] == [] && args[1..] == [];
    } else {
      LastWithMeans(args[1..], r);
      assert more[1..] == LastWith(args[1..], r) && more[0] == args[0];
    }
  }

  lemma {:induction false} LastWithPrint(args: seq<ArgForm>, r: Redirection)
    requires args != []
    ensures PrintArgs(LastWith(args, r)) == PrintArgs(args) + [Symbol(r.sign), Word(r.file)]
  {
    var more := LastWith(args, r);
    if |args| == 1 {
      RedirsMore(args[0].rs, r);
      assert more[1..] == [] && args[1..] == [];
    } else {
      LastWithPrint(args[1..], r);
      assert more[1..] == LastWith(args[1..], r) && more[0] == args[0];
    }
  }

  lemma {:induction false} WrapMore(c: Cmd<string>, rs: seq<Redirect<string>>, x: Redirect<string>)
    ensures Wrap(c, rs + [x]) == Redir(Wrap(c, rs), x.file, x.out)
  {
    assert (rs + [x])[..|rs|] == rs;
  }

  lemma {:induction false} SignsMore(rs: seq<Redirection>, r: Redirection)
    requires SignsOk(rs) && (r.sign == '<' || r.sign == '>')
    ensures SignsOk(rs + [r])
  {
  }

  lemma {:induction false} BlockWith(l: LineForm, rs: seq<Redirection>, r: Redirection)
    requires ExecOk(Block(l, rs)) && (r.sign == '<' || r.sign == '>')
    ensures ExecOk(Block(l, rs + [r]))
    ensures ExecMeans(Block(l, rs + [r])) == Redir(ExecMeans(Block(l, rs)), r.file, r.sign != '<')
    ensures PrintExec(Block(l, rs + [r])) == PrintExec(Block(l, rs)) + [Symbol(r.sign), Word(r.file)]
  {
    RedirsMore(rs, r);
    SignsMore(rs, r);
    WrapMore(LineMeans(l), Meant(rs), Redirect(r.file, r.sign != '<'));
  }

  /** A simple command whose redirections are, in order, those of another and r. */
  lemma {:induction false} SimpleWith(rs: seq<Redirection>, args: seq<ArgForm>, r: Redirection, rs': seq<Redirection>,
                                      args': seq<ArgForm>)
    requires ExecOk(Simple(rs, args)) && (r.sign == '<' || r.sign == '>')
    requires rs' + RedirsOf(args') == rs + RedirsOf(args) + [r] && WordsOf(args') == WordsOf(args) && |args'| == |args|
    ensures ExecOk(Simple(rs', args'))
    ensures ExecMeans(Simple(rs', args')) == Redir(ExecMeans(Simple(rs, args)), r.file, r.sign != '<')
  {
    var all := rs + RedirsOf(args);
    RedirsMore(all, r);
    SignsMore(all, r);
    WrapMore(Exec(WordsOf(args)), Meant(all), Redirect(r.file, r.sign != '<'));
  }

  lemma {:induction false} WithRedirMeans(e: ExecForm, r: Redirection)
    requires ExecOk(e) && (r.sign == '<' || r.sign == '>')
    ensures ExecOk(WithRedir(e, r)) && ExecMeans(WithRedir(e, r)) == Redir(ExecMeans(e), r.file, r.sign != '<')
  {
    if e.Block? {
      BlockWith(e.line, e.rs, r);
    } else if e.args == [] {
      assert e.rs + [r] + RedirsOf([]) == e.rs + RedirsOf(e.args) + [r];
      SimpleWith(e.rs, e.args, r, e.rs + [r], []);
    } else {
      LastWithMeans(e.args, r);
      assert e.rs + (RedirsOf(e.args) + [r]) == e.rs + RedirsOf(e.args) + [r];
      SimpleWith(e.rs, e.args, r, e.rs, LastWith(e.args, r));
    }
  }

  lemma {:induction false} WithRedirPrint(e: ExecForm, r: Redirection)
    requires ExecOk(e) && (r.sign == '<' || r.sign == '>')
    ensures PrintExec(WithRedir(e, r)) == PrintExec(e) + [Symbol(r.sign), Word(r.file)]
  {
    if e.Block? {
      BlockWith(e.line, e.rs, r);
    } else if e.args == [] {
      RedirsMore(e.rs, r);
    } else {
      LastWithPrint(e.args, r);
    }
  }

  /** The form is a line, means c, and can be typed if the words of c can. */
  lemma {:induction false} ToExecMeans(c: Cmd<string>)
    requires Fits(c)
    ensures ExecOk(ToExec(c)) && ExecMeans(ToExec(c)) == c && (WordsOk(c) ==> ItemsOk(PrintExec(ToExec(c))))
    decreases Size(c), if NeedsParens(c) then 4 else 0
  {
    match c
    case Exec(args) =>
      AsArgsFacts(args);
      assert [] + RedirsOf(AsArgs(args)) == [];
      assert PrintExec(ToExec(c)) == PrintArgs(AsArgs(args));
    case Redir(d, f, out) =>
      ToExecMeans(d);
      var r := Redirection(if out then '>' else '<', f);
      WithRedirMeans(ToExec(d), r);
      WithRedirPrint(ToExec(d), r);
    case _ =>
      ToLineMeans(c);
      assert PrintRedirs([]) == [];
  }

  lemma {:induction false} ToPipeMeans(c: Cmd<string>)
    requires Fits(c)
    ensures PipeOk(ToPipe(c)) && PipeMeans(ToPipe(c)) == c && (WordsOk(c) ==> ItemsOk(PrintPipe(ToPipe(c))))
    decreases Size(c), if c.Pipe? then 1 else 5
  {
    if c.Pipe? {
      ToExecMeans(c.left);
      ToPipeMeans(c.right);
    } else {
      ToExecMeans(c);
    }
  }

  lemma {:induction false} FrontFits(c: Cmd<string>)
    ensures (Fits(c) ==> Fits(Front(c))) && (WordsOk(c) ==> WordsOk(Front(c)))
  {
    if c.Back? {
      FrontFits(c.cmd);
    }
  }

  lemma {:induction false} ToLineMeans(c: Cmd<string>)
    requires Fits(c)
    ensures LineOk(ToLine(c)) && LineMeans(ToLine(c)) == c && (WordsOk(c) ==> ItemsOk(PrintLine(ToLine(c))))
    decreases Size(c), if NeedsParens(c) then 3 else 7
  {
    var d := if c.List? then c.left else c;
    FrontSmaller(d);
    FrontFits(d);
    ToPipeMeans(Front(d));
    if c.List? {
      ToLineMeans(c.right);
    }
  }

  /**
    Every command of typable words and at most nine arguments each has a line, which parses to it however it is spaced.
  */
  lemma {:induction false} RoundTrip(c: Cmd<string>, lead: string, gaps: seq<string>)
    requires Fits(c) && WordsOk(c) && Blank(lead) && GapsOk(PrintLine(ToLine(c)), gaps)
    ensures var s := lead + Typed(PrintLine(ToLine(c)), gaps);
            IsLine(s, ToLine(c), lead, gaps) && Gives(ParseAll(Tokens(s, 0)), s, c, [])
  {
    ToLineMeans(c);
    LineParses(lead + Typed(PrintLine(ToLine(c)), gaps), ToLine(c), lead, gaps);
  }
}
