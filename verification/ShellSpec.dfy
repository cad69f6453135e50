/** Command lines of the shell: the tokens of a line, the grammar of commands, and the strings that a
    parsed command refers to. */
module ShellSpec {
  const MAXARGS: nat := 10

  /** A stretch of the line, from its first character up to just after its last. */
  datatype Span = Span(q: nat, eq: nat)

  datatype Mode = ForReading | ForWriting

  datatype Cmd =
    | Exec(argv: seq<Span>)
    | Redir(cmd: Cmd, file: Span, mode: Mode, fd: nat)
    | Pipe(left: Cmd, right: Cmd)
    | List(left: Cmd, right: Cmd)
    | Back(cmd: Cmd)

  // ---- Tokens --------------------------------------------------------------------

  /** A word, or one of the symbols; + stands for >>. */
  datatype Tok = Word(span: Span) | Sym(c: char)

  predicate IsSpace(c: char) {
    c == ' ' || c == '\t' || c == '\r' || c == '\n' || c == '\U{0B}'
  }

  predicate IsSymbol(c: char) {
    c == '<' || c == '|' || c == '>' || c == '&' || c == ';' || c == '(' || c == ')'
  }

  function Skip(t: string, i: nat): (j: nat)
    requires i <= |t|
    ensures i <= j <= |t| && (j < |t| ==> !IsSpace(t[j]))
    ensures forall k :: i <= k < j ==> IsSpace(t[k])
    decreases |t| - i
  {
    if i < |t| && IsSpace(t[i]) then Skip(t, i + 1) else i
  }

  predicate InWord(c: char) {
    !IsSpace(c) && !IsSymbol(c)
  }

  function WordEnd(t: string, i: nat): (j: nat)
    requires i <= |t|
    ensures i <= j <= |t| && (j < |t| ==> !InWord(t[j]))
    ensures forall k :: i <= k < j ==> InWord(t[k])
    decreases |t| - i
  {
    if i < |t| && InWord(t[i]) then WordEnd(t, i + 1) else i
  }

  /** The end of the token that starts at i. */
  function TokEnd(t: string, i: nat): (j: nat)
    requires i < |t| && !IsSpace(t[i])
    ensures i < j <= |t|
  {
    if t[i] == '>' && i + 1 < |t| && t[i + 1] == '>' then i + 2
    else if IsSymbol(t[i]) then i + 1
    else WordEnd(t, i)
  }

  function TokAt(t: string, i: nat): Tok
    requires i < |t| && !IsSpace(t[i])
  {
    if t[i] == '>' && i + 1 < |t| && t[i + 1] == '>' then Sym('+')
    else if IsSymbol(t[i]) then Sym(t[i])
    else Word(Span(i, WordEnd(t, i)))
  }

  /** The tokens of the line from i on. */
  function Lex(t: string, i: nat): seq<Tok>
    requires i <= |t|
    decreases |t| - i
  {
    var j := Skip(t, i);
    if j == |t| then [] else [TokAt(t, j)] + Lex(t, TokEnd(t, j))
  }

  lemma SkipTwice(t: string, i: nat)
    requires i <= |t|
    ensures Skip(t, Skip(t, i)) == Skip(t, i)
    ensures Lex(t, Skip(t, i)) == Lex(t, i)
  {
  }

  /** The tokens from a up to b are ts. */
  predicate Between(t: string, a: nat, b: nat, ts: seq<Tok>)
  {
    a <= |t| && b <= |t| && Lex(t, a) == ts + Lex(t, b)
  }

  lemma BetweenMore(t: string, a: nat, b: nat, c: nat, ts: seq<Tok>, us: seq<Tok>)
    requires Between(t, a, b, ts) && Between(t, b, c, us)
    ensures Between(t, a, c, ts + us)
  {
  }

  lemma BetweenSkip(t: string, a: nat, ts: seq<Tok>, b: nat)
    requires b <= |t| && Between(t, a, b, ts)
    ensures Between(t, a, Skip(t, b), ts)
  {
  }

  /** One token, and the blanks after it. */
  lemma BetweenOne(t: string, a: nat)
    requires a <= |t| && Skip(t, a) < |t|
    ensures var j := Skip(t, a); Between(t, a, Skip(t, TokEnd(t, j)), [TokAt(t, j)])
  {
  }

  lemma BetweenNone(t: string, a: nat)
    requires a <= |t|
    ensures Between(t, a, a, [])
  {
  }

  // ---- The grammar --------------------------------------------------------------------

  predicate RedirSym(tok: Tok) {
    tok == Sym('<') || tok == Sym('>') || tok == Sym('+')
  }

  /** The redirection that a symbol asks for. */
  function Redirected(cmd: Cmd, sym: Tok, file: Span): Cmd {
    if sym == Sym('<') then Redir(cmd, file, ForReading, 0) else Redir(cmd, file, ForWriting, 1)
  }

  /** Words and redirections, in any order. */
  predicate SimpleToks(ts: seq<Tok>)
    decreases |ts|
  {
    if ts == [] then true
    else if RedirSym(ts[0]) then |ts| >= 2 && ts[1].Word? && SimpleToks(ts[2..])
    else ts[0].Word? && SimpleToks(ts[1..])
  }

  /** Redirections only. */
  predicate RedirToks(ts: seq<Tok>)
    decreases |ts|
  {
    ts == [] || (|ts| >= 2 && RedirSym(ts[0]) && ts[1].Word? && RedirToks(ts[2..]))
  }

  /** The arguments: the words that are not files of redirections. */
  function Args(ts: seq<Tok>): seq<Span>
    decreases |ts|
  {
    if ts == [] then []
    else if RedirSym(ts[0]) then (if |ts| >= 2 then Args(ts[2..]) else [])
    else if ts[0].Word? then [ts[0].span] + Args(ts[1..])
    else []
  }

  /** A command inside its redirections, the first one innermost. */
  function Wrapped(c: Cmd, ts: seq<Tok>): Cmd
    decreases |ts|
  {
    if ts == [] then c
    else if RedirSym(ts[0]) then
      (if |ts| >= 2 && ts[1].Word? then Wrapped(Redirected(c, ts[0], ts[1].span), ts[2..]) else c)
    else Wrapped(c, ts[1..])
  }

  predicate IsSimple(c: Cmd, ts: seq<Tok>) {
    SimpleToks(ts) && |Args(ts)| < MAXARGS && c == Wrapped(Exec(Args(ts)), ts)
  }

  /** A line in parentheses, with redirections after it. */
  ghost predicate IsBlock(c: Cmd, ts: seq<Tok>)
    decreases |ts|, 0
  {
    exists d: Cmd, k: nat :: Closes(c, d, ts, k) && IsLine(d, ts[1..k])
  }

  /** The parentheses close at k, around d. */
  predicate Closes(c: Cmd, d: Cmd, ts: seq<Tok>, k: nat) {
    0 < k < |ts| && ts[0] == Sym('(') && ts[k] == Sym(')') && RedirToks(ts[k + 1..]) && c == Wrapped(d, ts[k + 1..])
  }

  ghost predicate IsExec(c: Cmd, ts: seq<Tok>)
    decreases |ts|, 1
  {
    IsSimple(c, ts) || IsBlock(c, ts)
  }

  /** Commands joined by |, to the right. */
  ghost predicate IsPipe(c: Cmd, ts: seq<Tok>)
    decreases |ts|, 2
  {
    || IsExec(c, ts)
    || (c.Pipe? && exists k: nat ::
      k < |ts| && ts[k] == Sym('|') && IsExec(c.left, ts[..k]) && IsPipe(c.right, ts[k + 1..]))
  }

  /** A pipeline with any number of & after it. */
  ghost predicate IsAmp(c: Cmd, ts: seq<Tok>)
    decreases |ts|, 3
  {
    || IsPipe(c, ts)
    || (c.Back? && ts != [] && ts[|ts| - 1] == Sym('&') && IsAmp(c.cmd, ts[..|ts| - 1]))
  }

  /** Such pipelines joined by ;, to the right. */
  ghost predicate IsLine(c: Cmd, ts: seq<Tok>)
    decreases |ts|, 4
  {
    || IsAmp(c, ts)
    || (c.List? && exists k: nat ::
      k < |ts| && ts[k] == Sym(';') && IsAmp(c.left, ts[..k]) && IsLine(c.right, ts[k + 1..]))
  }

  lemma LineOfTwo(l: Cmd, r: Cmd, a: seq<Tok>, b: seq<Tok>)
    requires IsAmp(l, a) && IsLine(r, b)
    ensures IsLine(List(l, r), a + [Sym(';')] + b)
  {
    var ts := a + [Sym(';')] + b;
    assert ts[|a|] == Sym(';') && ts[..|a|] == a && ts[|a| + 1..] == b;
  }

  lemma PipeOfTwo(l: Cmd, r: Cmd, a: seq<Tok>, b: seq<Tok>)
    requires IsExec(l, a) && IsPipe(r, b)
    ensures IsPipe(Pipe(l, r), a + [Sym('|')] + b)
  {
    var ts := a + [Sym('|')] + b;
    assert ts[|a|] == Sym('|') && ts[..|a|] == a && ts[|a| + 1..] == b;
  }

  lemma AmpAfter(c: Cmd, a: seq<Tok>)
    requires IsAmp(c, a)
    ensures IsAmp(Back(c), a + [Sym('&')])
  {
  }

  lemma BlockOf(d: Cmd, a: seq<Tok>, b: seq<Tok>)
    requires IsLine(d, a) && RedirToks(b)
    ensures IsBlock(Wrapped(d, b), [Sym('(')] + a + [Sym(')')] + b)
  {
    var ts, k := [Sym('(')] + a + [Sym(')')] + b, |a| + 1;
    assert ts[1..k] == a && ts[k + 1..] == b;
    assert Closes(Wrapped(d, b), d, ts, k);
  }

  /** One more argument. */
  lemma {:induction false} SimpleWord(ts: seq<Tok>, w: Span, c: Cmd)
    requires SimpleToks(ts)
    ensures SimpleToks(ts + [Word(w)]) && Args(ts + [Word(w)]) == Args(ts) + [w]
    ensures Wrapped(c, ts + [Word(w)]) == Wrapped(c, ts)
    decreases |ts|
  {
    var all := ts + [Word(w)];
    if ts == [] {
      assert all[1..] == [];
    } else if RedirSym(ts[0]) {
      SimpleWord(ts[2..], w, Redirected(c, ts[0], ts[1].span));
      assert all[2..] == ts[2..] + [Word(w)];
    } else {
      SimpleWord(ts[1..], w, c);
      assert all[1..] == ts[1..] + [Word(w)];
    }
  }

  lemma {:induction false} RedirsAreSimple(rs: seq<Tok>)
    requires RedirToks(rs)
    ensures SimpleToks(rs) && Args(rs) == []
    decreases |rs|
  {
    if rs != [] {
      RedirsAreSimple(rs[2..]);
    }
  }

  /** More redirections. */
  lemma {:induction false} SimpleRedirs(ts: seq<Tok>, rs: seq<Tok>)
    requires SimpleToks(ts) && RedirToks(rs)
    ensures SimpleToks(ts + rs) && Args(ts + rs) == Args(ts)
    decreases |ts|
  {
    var all := ts + rs;
    if ts == [] {
      RedirsAreSimple(rs);
      assert all == rs;
    } else if RedirSym(ts[0]) {
      SimpleRedirs(ts[2..], rs);
      assert all[2..] == ts[2..] + rs;
    } else {
      SimpleRedirs(ts[1..], rs);
      assert all[1..] == ts[1..] + rs;
    }
  }

  lemma {:induction false} WrappedMore(c: Cmd, ts: seq<Tok>, rs: seq<Tok>)
    requires SimpleToks(ts)
    ensures Wrapped(c, ts + rs) == Wrapped(Wrapped(c, ts), rs)
    decreases |ts|
  {
    var all := ts + rs;
    if ts == [] {
      assert all == rs;
    } else if RedirSym(ts[0]) {
      WrappedMore(Redirected(c, ts[0], ts[1].span), ts[2..], rs);
      assert all[2..] == ts[2..] + rs;
    } else {
      WrappedMore(c, ts[1..], rs);
      assert all[1..] == ts[1..] + rs;
    }
  }

  lemma {:induction false} RedirsMore(rs: seq<Tok>, sym: Tok, f: Span, c: Cmd)
    requires RedirToks(rs) && RedirSym(sym)
    ensures RedirToks(rs + [sym, Word(f)]) && Wrapped(c, rs + [sym, Word(f)]) == Redirected(Wrapped(c, rs), sym, f)
    decreases |rs|
  {
    var all := rs + [sym, Word(f)];
    if rs == [] {
      assert all == [sym, Word(f)] && all[2..] == [];
    } else {
      RedirsMore(rs[2..], sym, f, Redirected(c, rs[0], rs[1].span));
      assert all[2..] == rs[2..] + [sym, Word(f)];
    }
  }

  /** The command with other arguments, as if the innermost one had been changed in place. */
  function Regrown(c: Cmd, argv: seq<Span>): Cmd {
    match c
    case Redir(d, file, mode, fd) => Redir(Regrown(d, argv), file, mode, fd)
    case _ => Exec(argv)
  }

  lemma {:induction false} RegrownInside(c: Cmd, ts: seq<Tok>, argv: seq<Span>)
    ensures Regrown(Wrapped(c, ts), argv) == Wrapped(Regrown(c, argv), ts)
    decreases |ts|
  {
    if ts != [] {
      if RedirSym(ts[0]) {
        if |ts| >= 2 && ts[1].Word? {
          RegrownInside(Redirected(c, ts[0], ts[1].span), ts[2..], argv);
        }
      } else {
        RegrownInside(c, ts[1..], argv);
      }
    }
  }

  /** A simple command with its arguments so far. */
  predicate SoFar(c: Cmd, argv: seq<Span>, ts: seq<Tok>) {
    SimpleToks(ts) && Args(ts) == argv && c == Wrapped(Exec(argv), ts)
  }

  lemma SoFarWord(c: Cmd, argv: seq<Span>, ts: seq<Tok>, w: Span)
    requires SoFar(c, argv, ts)
    ensures SoFar(Regrown(c, argv + [w]), argv + [w], ts + [Word(w)])
  {
    SimpleWord(ts, w, Exec(argv + [w]));
    RegrownInside(Exec(argv), ts, argv + [w]);
  }

  lemma SoFarRedirs(c: Cmd, argv: seq<Span>, ts: seq<Tok>, rs: seq<Tok>)
    requires SoFar(c, argv, ts) && RedirToks(rs)
    ensures SoFar(Wrapped(c, rs), argv, ts + rs)
  {
    SimpleRedirs(ts, rs);
    WrappedMore(Exec(argv), ts, rs);
  }

  // ---- Words --------------------------------------------------------------------

  function One(a: Span, x: Span): nat {
    if a == x then 1 else 0
  }

  function Occurs(spans: seq<Span>, x: Span): nat {
    if spans == [] then 0 else One(spans[0], x) + Occurs(spans[1..], x)
  }

  /** How often a command refers to x. */
  function Uses(c: Cmd, x: Span): nat {
    match c
    case Exec(argv) => Occurs(argv, x)
    case Redir(d, file, _, _) => Uses(d, x) + One(file, x)
    case Pipe(l, r) => Uses(l, x) + Uses(r, x)
    case List(l, r) => Uses(l, x) + Uses(r, x)
    case Back(d) => Uses(d, x)
  }

  function IsWord(tok: Tok, x: Span): nat {
    if tok.Word? then One(tok.span, x) else 0
  }

  /** How often the word x is among the tokens. */
  function Counts(ts: seq<Tok>, x: Span): nat {
    if ts == [] then 0 else IsWord(ts[0], x) + Counts(ts[1..], x)
  }

  lemma {:induction false} CountsSplit(a: seq<Tok>, b: seq<Tok>, x: Span)
    ensures Counts(a + b, x) == Counts(a, x) + Counts(b, x)
  {
    if a == [] {
      assert a + b == b;
    } else {
      CountsSplit(a[1..], b, x);
      assert (a + b)[1..] == a[1..] + b;
    }
  }

  lemma CountsAt(ts: seq<Tok>, k: nat, x: Span)
    requires k < |ts|
    ensures Counts(ts, x) == Counts(ts[..k], x) + IsWord(ts[k], x) + Counts(ts[k + 1..], x)
  {
    assert ts == ts[..k] + ts[k..];
    CountsSplit(ts[..k], ts[k..], x);
    assert ts[k..][1..] == ts[k + 1..];
  }

  /** Redirections and arguments account for every word. */
  lemma {:induction false} SimpleUses(ts: seq<Tok>, c: Cmd, x: Span)
    requires SimpleToks(ts)
    ensures Uses(Wrapped(c, ts), x) + Occurs(Args(ts), x) == Uses(c, x) + Counts(ts, x)
    decreases |ts|
  {
    if ts == [] {
    } else if RedirSym(ts[0]) {
      SimpleUses(ts[2..], Redirected(c, ts[0], ts[1].span), x);
      assert ts[1..][1..] == ts[2..];
    } else {
      SimpleUses(ts[1..], c, x);
      assert Args(ts)[1..] == Args(ts[1..]);
    }
  }

  lemma BlockUses(c: Cmd, d: Cmd, ts: seq<Tok>, k: nat, x: Span)
    requires Closes(c, d, ts, k) && Uses(d, x) == Counts(ts[1..k], x)
    ensures Uses(c, x) == Counts(ts, x)
  {
    RedirsAreSimple(ts[k + 1..]);
    SimpleUses(ts[k + 1..], d, x);
    CountsAt(ts, k, x);
    CountsAt(ts[..k], 0, x);
    assert ts[..k][1..] == ts[1..k];
  }

  /** A command refers to each word of its tokens as often as it occurs there, and to nothing else. */
  lemma {:induction false} ExecUses(c: Cmd, ts: seq<Tok>, x: Span)
    requires IsExec(c, ts)
    ensures Uses(c, x) == Counts(ts, x)
    decreases |ts|, 1
  {
    if IsSimple(c, ts) {
      SimpleUses(ts, Exec(Args(ts)), x);
    } else {
      assert IsBlock(c, ts);
      var d: Cmd, k: nat :| Closes(c, d, ts, k) && IsLine(d, ts[1..k]);
      LineUses(d, ts[1..k], x);
      BlockUses(c, d, ts, k, x);
    }
  }

  lemma {:induction false} PipeUses(c: Cmd, ts: seq<Tok>, x: Span)
    requires IsPipe(c, ts)
    ensures Uses(c, x) == Counts(ts, x)
    decreases |ts|, 2
  {
    if IsExec(c, ts) {
      ExecUses(c, ts, x);
    } else {
      var k: nat :| k < |ts| && ts[k] == Sym('|') && IsExec(c.left, ts[..k]) && IsPipe(c.right, ts[k + 1..]);
      ExecUses(c.left, ts[..k], x);
      PipeUses(c.right, ts[k + 1..], x);
      CountsAt(ts, k, x);
    }
  }

  lemma {:induction false} AmpUses(c: Cmd, ts: seq<Tok>, x: Span)
    requires IsAmp(c, ts)
    ensures Uses(c, x) == Counts(ts, x)
    decreases |ts|, 3
  {
    if IsPipe(c, ts) {
      PipeUses(c, ts, x);
    } else {
      AmpUses(c.cmd, ts[..|ts| - 1], x);
      CountsAt(ts, |ts| - 1, x);
    }
  }

  lemma {:induction false} LineUses(c: Cmd, ts: seq<Tok>, x: Span)
    requires IsLine(c, ts)
    ensures Uses(c, x) == Counts(ts, x)
    decreases |ts|, 4
  {
    if IsAmp(c, ts) {
      AmpUses(c, ts, x);
    } else {
      var k: nat :| k < |ts| && ts[k] == Sym(';') && IsAmp(c.left, ts[..k]) && IsLine(c.right, ts[k + 1..]);
      AmpUses(c.left, ts[..k], x);
      LineUses(c.right, ts[k + 1..], x);
      CountsAt(ts, k, x);
    }
  }

  /** A word of the line: a longest stretch of characters that are neither blank nor symbols. */
  predicate IsWordOf(t: string, x: Span) {
    && x.q < x.eq <= |t| && (forall i :: x.q <= i < x.eq ==> InWord(t[i]))
    && (x.q > 0 ==> !InWord(t[x.q - 1])) && (x.eq < |t| ==> !InWord(t[x.eq]))
  }

  /** The only word that starts before the end of the next token is that token, if it is a word. */
  lemma FirstWord(t: string, i: nat, x: Span)
    requires i <= |t| && Skip(t, i) < |t| && (i > 0 && i < |t| ==> !InWord(t[i - 1]) || !InWord(t[i]))
    ensures var j := Skip(t, i);
      IsWordOf(t, x) && i <= x.q < TokEnd(t, j) <==> TokAt(t, j) == Word(x)
  {
    var j := Skip(t, i);
    var k := TokEnd(t, j);
    assert i <= x.q < j ==> IsSpace(t[x.q]);
    if TokAt(t, j).Word? {
      assert j < x.q < k ==> InWord(t[x.q - 1]);
      assert x.q <= k < x.eq && x.eq <= |t| ==> !InWord(t[k]);
      assert j < x.eq < k ==> InWord(t[x.eq]);
      assert j > i ==> IsSpace(t[j - 1]);
    }
  }

  /** The lexer finds each word of the line from i on exactly once, and nothing that is not a word. */
  lemma {:induction false} LexFindsWords(t: string, i: nat, x: Span)
    requires i <= |t| && (i > 0 && i < |t| ==> !InWord(t[i - 1]) || !InWord(t[i]))
    ensures Counts(Lex(t, i), x) == if IsWordOf(t, x) && i <= x.q then 1 else 0
    decreases |t| - i
  {
    var j := Skip(t, i);
    if j == |t| {
      assert i <= x.q < |t| ==> IsSpace(t[x.q]);
    } else {
      var k := TokEnd(t, j);
      LexFindsWords(t, k, x);
      FirstWord(t, i, x);
      assert Lex(t, i)[1..] == Lex(t, k);
    }
  }

  // ---- Terminators --------------------------------------------------------------------

  /** Some string that the command refers to ends at p. */
  predicate EndsAt(c: Cmd, p: nat) {
    match c
    case Exec(argv) => exists i :: 0 <= i < |argv| && argv[i].eq == p
    case Redir(d, file, _, _) => EndsAt(d, p) || file.eq == p
    case Pipe(l, r) => EndsAt(l, p) || EndsAt(r, p)
    case List(l, r) => EndsAt(l, p) || EndsAt(r, p)
    case Back(d) => EndsAt(d, p)
  }

  lemma {:induction false} OccursIn(spans: seq<Span>, i: nat)
    requires i < |spans|
    ensures Occurs(spans, spans[i]) > 0
  {
    if i > 0 {
      OccursIn(spans[1..], i - 1);
    }
  }

  lemma {:induction false} OccursAt(spans: seq<Span>, x: Span) returns (i: nat)
    requires Occurs(spans, x) > 0
    ensures i < |spans| && spans[i] == x
  {
    if spans[0] == x {
      i := 0;
    } else {
      i := OccursAt(spans[1..], x);
      i := i + 1;
    }
  }

  lemma {:induction false} EndOf(c: Cmd, p: nat) returns (x: Span)
    requires EndsAt(c, p)
    ensures Uses(c, x) > 0 && x.eq == p
  {
    match c
    case Exec(argv) =>
      var i :| 0 <= i < |argv| && argv[i].eq == p;
      x := argv[i];
      OccursIn(argv, i);
    case Redir(d, file, _, _) =>
      if file.eq == p {
        x := file;
      } else {
        x := EndOf(d, p);
      }
    case Pipe(l, r) =>
      if EndsAt(l, p) {
        x := EndOf(l, p);
      } else {
        x := EndOf(r, p);
      }
    case List(l, r) =>
      if EndsAt(l, p) {
        x := EndOf(l, p);
      } else {
        x := EndOf(r, p);
      }
    case Back(d) => x := EndOf(d, p);
  }

  lemma {:induction false} UsedEnds(c: Cmd, x: Span)
    requires Uses(c, x) > 0
    ensures EndsAt(c, x.eq)
  {
    match c
    case Exec(argv) =>
      var i := OccursAt(argv, x);
      assert argv[i].eq == x.eq;
    case Redir(d, file, _, _) =>
      if file != x {
        UsedEnds(d, x);
      }
    case Pipe(l, r) =>
      if Uses(l, x) > 0 {
        UsedEnds(l, x);
      } else {
        UsedEnds(r, x);
      }
    case List(l, r) =>
      if Uses(l, x) > 0 {
        UsedEnds(l, x);
      } else {
        UsedEnds(r, x);
      }
    case Back(d) => UsedEnds(d, x);
  }

  /** The string at address i: everything up to the first NUL. */
  function CString(b: seq<char>, i: nat): string
    requires i <= |b|
    decreases |b| - i
  {
    if i < |b| && b[i] != '\0' then [b[i]] + CString(b, i + 1) else []
  }

  lemma {:induction false} CStringIs(b: seq<char>, i: nat, j: nat)
    requires i <= j < |b| && b[j] == '\0' && forall k :: i <= k < j ==> b[k] != '\0'
    ensures CString(b, i) == b[i..j]
    decreases j - i
  {
    if i < j {
      CStringIs(b, i + 1, j);
      assert b[i..j] == [b[i]] + b[i + 1..j];
    }
  }

  /** A command accepted for the line: every word of the line is in it once, and nothing else. */
  lemma LineOnce(t: string, c: Cmd, x: Span)
    requires IsLine(c, Lex(t, 0))
    ensures Uses(c, x) == if IsWordOf(t, x) then 1 else 0
  {
    LineUses(c, Lex(t, 0), x);
    LexFindsWords(t, 0, x);
  }

  /** With a NUL at the end of each of its strings, every string of the command reads as it was. */
  lemma StringsIntact(t: string, b: seq<char>, c: Cmd, x: Span)
    requires IsLine(c, Lex(t, 0)) && |b| > |t| && (forall i :: 0 <= i < |t| ==> t[i] != '\0')
    requires forall p :: 0 <= p <= |t| ==> b[p] == if EndsAt(c, p) || p == |t| then '\0' else t[p]
    requires Uses(c, x) > 0
    ensures x.q <= x.eq <= |t| && CString(b, x.q) == t[x.q..x.eq]
  {
    LineOnce(t, c, x);
    UsedEnds(c, x);
    forall i | x.q <= i < x.eq
      ensures b[i] == t[i]
    {
      if EndsAt(c, i) {
        var y := EndOf(c, i);
        LineOnce(t, c, y);
        assert false;
      }
    }
    CStringIs(b, x.q, x.eq);
  }

  lemma EndsInside(t: string, c: Cmd, p: nat)
    requires IsLine(c, Lex(t, 0)) && EndsAt(c, p)
    ensures p <= |t|
  {
    var x := EndOf(c, p);
    LineOnce(t, c, x);
  }
}
