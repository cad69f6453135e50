/** What the grammar of command lines means: which redirections a command gets, and a printer whose lines
    derive the command printed. */
module ShellMeaning {
  import opened ShellSpec

  // ---- Redirections --------------------------------------------------------------------

  datatype Redirection = Redirection(file: Span, mode: Mode, fd: nat)

  /** Tokens k and k + 1 ask for the redirection: < for reading on descriptor 0, > or >> for writing on 1. */
  predicate AskedAt(ts: seq<Tok>, k: nat, r: Redirection) {
    && k + 1 < |ts| && ts[k + 1] == Word(r.file)
    && (ts[k] == Sym('<') || ts[k] == Sym('>') || ts[k] == Sym('+'))
    && (ts[k] == Sym('<') ==> r.mode == ForReading && r.fd == 0)
    && (ts[k] != Sym('<') ==> r.mode == ForWriting && r.fd == 1)
  }

  ghost predicate Asked(ts: seq<Tok>, r: Redirection) {
    exists k: nat :: AskedAt(ts, k, r)
  }

  /** The redirection is somewhere in the command. */
  predicate HasRedir(c: Cmd, r: Redirection) {
    match c
    case Exec(_) => false
    case Redir(d, file, mode, fd) => r == Redirection(file, mode, fd) || HasRedir(d, r)
    case Pipe(a, b) => HasRedir(a, r) || HasRedir(b, r)
    case List(a, b) => HasRedir(a, r) || HasRedir(b, r)
    case Back(d) => HasRedir(d, r)
  }

  lemma AskedAround(ts: seq<Tok>, k: nat, r: Redirection)
    requires k < |ts| && !RedirSym(ts[k]) && !ts[k].Word?
    ensures Asked(ts, r) <==> Asked(ts[..k], r) || Asked(ts[k + 1..], r)
  {
    var a, b := ts[..k], ts[k + 1..];
    if i: nat :| AskedAt(a, i, r) {
      assert AskedAt(ts, i, r);
    }
    if i: nat :| AskedAt(b, i, r) {
      assert AskedAt(ts, k + 1 + i, r);
    }
    if i: nat :| AskedAt(ts, i, r) {
      if i < k {
        assert AskedAt(a, i, r);
      } else {
        assert AskedAt(b, i - k - 1, r);
      }
    }
  }

  lemma AskedAfter(ts: seq<Tok>, n: nat, r: Redirection)
    requires n <= |ts|
    ensures Asked(ts[n..], r) <==> exists k: nat :: n <= k && AskedAt(ts, k, r)
  {
    if i: nat :| AskedAt(ts[n..], i, r) {
      assert AskedAt(ts, n + i, r);
    }
    if k: nat :| n <= k && AskedAt(ts, k, r) {
      assert AskedAt(ts[n..], k - n, r);
    }
  }

  lemma {:induction false} SimpleAsks(ts: seq<Tok>, c: Cmd, r: Redirection)
    requires SimpleToks(ts)
    ensures HasRedir(Wrapped(c, ts), r) <==> HasRedir(c, r) || Asked(ts, r)
    decreases |ts|
  {
    if ts == [] {
    } else if RedirSym(ts[0]) {
      SimpleAsks(ts[2..], Redirected(c, ts[0], ts[1].span), r);
      AskedAfter(ts, 2, r);
      assert !AskedAt(ts, 1, r);
      assert HasRedir(Redirected(c, ts[0], ts[1].span), r) <==> HasRedir(c, r) || AskedAt(ts, 0, r);
    } else {
      SimpleAsks(ts[1..], c, r);
      AskedAfter(ts, 1, r);
      assert !AskedAt(ts, 0, r);
    }
  }

  lemma BlockAsks(c: Cmd, d: Cmd, ts: seq<Tok>, k: nat, r: Redirection)
    requires Closes(c, d, ts, k) && (HasRedir(d, r) <==> Asked(ts[1..k], r))
    ensures HasRedir(c, r) <==> Asked(ts, r)
  {
    RedirsAreSimple(ts[k + 1..]);
    SimpleAsks(ts[k + 1..], d, r);
    AskedAround(ts, k, r);
    AskedAround(ts[..k], 0, r);
    assert ts[..k][1..] == ts[1..k] && !Asked(ts[..k][..0], r);
  }

  lemma {:induction false} ExecAsks(c: Cmd, ts: seq<Tok>, r: Redirection)
    requires IsExec(c, ts)
    ensures HasRedir(c, r) <==> Asked(ts, r)
    decreases |ts|, 1
  {
    hide Asked;
    if IsSimple(c, ts) {
      SimpleAsks(ts, Exec(Args(ts)), r);
    } else {
      assert IsBlock(c, ts);
      var d: Cmd, k: nat :| Closes(c, d, ts, k) && IsLine(d, ts[1..k]);
      LineAsks(d, ts[1..k], r);
      BlockAsks(c, d, ts, k, r);
    }
  }

  lemma {:induction false} PipeAsks(c: Cmd, ts: seq<Tok>, r: Redirection)
    requires IsPipe(c, ts)
    ensures HasRedir(c, r) <==> Asked(ts, r)
    decreases |ts|, 2
  {
    hide Asked;
    if IsExec(c, ts) {
      ExecAsks(c, ts, r);
    } else {
      var k: nat :| k < |ts| && ts[k] == Sym('|') && IsExec(c.left, ts[..k]) && IsPipe(c.right, ts[k + 1..]);
      ExecAsks(c.left, ts[..k], r);
      PipeAsks(c.right, ts[k + 1..], r);
      AskedAround(ts, k, r);
    }
  }

  lemma {:induction false} AmpAsks(c: Cmd, ts: seq<Tok>, r: Redirection)
    requires IsAmp(c, ts)
    ensures HasRedir(c, r) <==> Asked(ts, r)
    decreases |ts|, 3
  {
    if IsPipe(c, ts) {
      PipeAsks(c, ts, r);
    } else {
      var k := |ts| - 1;
      AmpAsks(c.cmd, ts[..k], r);
      AskedAround(ts, k, r);
      assert ts[k + 1..] == [];
    }
  }

  /** A command has a redirection exactly if the line asks for it: its file is the word right after one of the
      symbols <, > and >>, and it is for reading on descriptor 0 if that is <, for writing on 1 if not. */
  lemma {:induction false} LineAsks(c: Cmd, ts: seq<Tok>, r: Redirection)
    requires IsLine(c, ts)
    ensures HasRedir(c, r) <==> Asked(ts, r)
    decreases |ts|, 4
  {
    hide Asked;
    if IsAmp(c, ts) {
      AmpAsks(c, ts, r);
    } else {
      var k: nat :| k < |ts| && ts[k] == Sym(';') && IsAmp(c.left, ts[..k]) && IsLine(c.right, ts[k + 1..]);
      AmpAsks(c.left, ts[..k], r);
      LineAsks(c.right, ts[k + 1..], r);
      AskedAround(ts, k, r);
    }
  }

  /** The command with its n outermost redirections taken off. */
  function Inner(c: Cmd, n: nat): Cmd {
    if n == 0 then c
    else
      var d := Inner(c, n - 1);
      if d.Redir? then d.cmd else d
  }

  /** Command d is c inside the redirections that ts asks for, the first one innermost. */
  ghost predicate Inside(c: Cmd, d: Cmd, ts: seq<Tok>) {
    && |ts| % 2 == 0 && Inner(d, |ts| / 2) == c
    && (forall j: nat :: j < |ts| / 2 ==> Layer(d, ts, j))
  }

  /** The redirection of d with j others inside it is the one that tokens 2j and 2j + 1 ask for. */
  predicate Layer(d: Cmd, ts: seq<Tok>, j: nat)
    requires j < |ts| / 2
  {
    var e := Inner(d, |ts| / 2 - j - 1);
    e.Redir? && AskedAt(ts, 2 * j, Redirection(e.file, e.mode, e.fd))
  }

  lemma {:induction false} RedirsInside(c: Cmd, ts: seq<Tok>)
    requires RedirToks(ts)
    ensures Inside(c, Wrapped(c, ts), ts)
    decreases |ts|
  {
    if ts != [] {
      var e, n, d := Redirected(c, ts[0], ts[1].span), |ts| / 2, Wrapped(c, ts);
      RedirsInside(e, ts[2..]);
      assert |ts[2..]| / 2 == n - 1 && Inner(d, n - 1) == e;
      forall j: nat | j < n
        ensures Layer(d, ts, j)
      {
        if j > 0 {
          assert Layer(d, ts[2..], j - 1);
        }
      }
    }
  }

  // ---- Printing --------------------------------------------------------------------

  /** A command as a line can ask for it: fewer than ten arguments each, and descriptors that fit the mode. */
  predicate Printable(c: Cmd) {
    match c
    case Exec(argv) => |argv| < 10
    case Redir(d, _, mode, fd) => fd == (if mode == ForReading then 0 else 1) && Printable(d)
    case Pipe(a, b) => Printable(a) && Printable(b)
    case List(a, b) => Printable(a) && Printable(b)
    case Back(d) => Printable(d)
  }

  function Words(argv: seq<Span>): seq<Tok> {
    if argv == [] then [] else [Word(argv[0])] + Words(argv[1..])
  }

  function Quoted(ts: seq<Tok>): seq<Tok> {
    [Sym('(')] + ts + [Sym(')')]
  }

  /** The command inside its redirections. */
  function Core(c: Cmd): (d: Cmd)
    ensures !d.Redir? && (d == c || d < c)
  {
    match c
    case Redir(d, _, _, _) => Core(d)
    case _ => c
  }

  /** Its redirections, the innermost first. */
  function Redirs(c: Cmd): seq<Tok> {
    match c
    case Redir(d, file, mode, _) => Redirs(d) + [Sym(if mode == ForReading then '<' else '>'), Word(file)]
    case _ => []
  }

  /** Where a simple command or a block can stand. */
  function PrintExec(c: Cmd): seq<Tok>
    decreases c, 1
  {
    var d := Core(c);
    (if d.Exec? then Words(d.argv) else Quoted(PrintBody(d))) + Redirs(c)
  }

  /** A command without parentheses around it. */
  function PrintBody(c: Cmd): seq<Tok>
    requires c.Pipe? || c.List? || c.Back?
    decreases c, 0
  {
    match c
    case Pipe(a, b) => PrintExec(a) + [Sym('|')] + (if b.Pipe? then PrintBody(b) else PrintExec(b))
    case List(a, b) => PrintAmp(a) + [Sym(';')] + PrintLine(b)
    case Back(d) => PrintAmp(d) + [Sym('&')]
  }

  function PrintAmp(c: Cmd): seq<Tok>
    decreases c, 2
  {
    if c.Pipe? || c.Back? then PrintBody(c) else PrintExec(c)
  }

  function PrintLine(c: Cmd): seq<Tok>
    decreases c, 2
  {
    if c.Pipe? || c.Back? || c.List? then PrintBody(c) else PrintExec(c)
  }

  lemma {:induction false} WordsAreArgs(argv: seq<Span>, c: Cmd)
    ensures SimpleToks(Words(argv)) && Args(Words(argv)) == argv && Wrapped(c, Words(argv)) == c
  {
    if argv != [] {
      WordsAreArgs(argv[1..], c);
      assert Words(argv)[1..] == Words(argv[1..]);
    }
  }

  lemma {:induction false} RedirsWrap(c: Cmd)
    requires Printable(c)
    ensures RedirToks(Redirs(c)) && Wrapped(Core(c), Redirs(c)) == c && Printable(Core(c))
  {
    if c.Redir? {
      RedirsWrap(c.cmd);
      RedirsMore(Redirs(c.cmd), Sym(if c.mode == ForReading then '<' else '>'), c.file, Core(c));
    }
  }

  lemma {:induction false} ExecPrints(c: Cmd)
    requires Printable(c)
    ensures IsExec(c, PrintExec(c))
    decreases c, 3
  {
    var d, rs := Core(c), Redirs(c);
    RedirsWrap(c);
    if d.Exec? {
      WordsAreArgs(d.argv, d);
      assert SoFar(d, d.argv, Words(d.argv));
      SoFarRedirs(d, d.argv, Words(d.argv), rs);
    } else {
      BodyPrints(d);
      LineWeaker(d, PrintBody(d));
      BlockOf(d, PrintBody(d), rs);
      assert PrintExec(c) == [Sym('(')] + PrintBody(d) + [Sym(')')] + rs;
    }
  }

  lemma LineWeaker(c: Cmd, ts: seq<Tok>)
    requires if c.Pipe? then IsPipe(c, ts) else if c.Back? then IsAmp(c, ts) else IsLine(c, ts)
    ensures IsLine(c, ts)
  {
    if c.Pipe? {
      assert IsAmp(c, ts);
    }
  }

  lemma {:induction false} BodyPrints(c: Cmd)
    requires Printable(c) && (c.Pipe? || c.List? || c.Back?)
    ensures if c.Pipe? then IsPipe(c, PrintBody(c))
      else if c.Back? then IsAmp(c, PrintBody(c)) else IsLine(c, PrintBody(c))
    decreases c, 2
  {
    hide IsExec, IsPipe, IsAmp, IsLine;
    match c
    case Pipe(a, b) =>
      ExecPrints(a);
      if b.Pipe? {
        BodyPrints(b);
        PipeOfTwo(a, b, PrintExec(a), PrintBody(b));
      } else {
        ExecPrints(b);
        ExecIsPipe(b, PrintExec(b));
        PipeOfTwo(a, b, PrintExec(a), PrintExec(b));
      }
    case List(a, b) =>
      AmpPrints(a);
      LinePrints(b);
      LineOfTwo(a, b, PrintAmp(a), PrintLine(b));
    case Back(d) =>
      AmpPrints(d);
      AmpAfter(d, PrintAmp(d));
  }

  lemma ExecIsPipe(c: Cmd, ts: seq<Tok>)
    requires IsExec(c, ts)
    ensures IsPipe(c, ts)
  {
  }

  lemma {:induction false} AmpPrints(c: Cmd)
    requires Printable(c)
    ensures IsAmp(c, PrintAmp(c))
    decreases c, 4
  {
    if c.Pipe? || c.Back? {
      BodyPrints(c);
    } else {
      ExecPrints(c);
      ExecIsPipe(c, PrintExec(c));
    }
  }

  /** The line printed for a command derives it. */
  lemma {:induction false} LinePrints(c: Cmd)
    requires Printable(c)
    ensures IsLine(c, PrintLine(c))
    decreases c, 4
  {
    if c.Pipe? || c.Back? || c.List? {
      BodyPrints(c);
      LineWeaker(c, PrintBody(c));
    } else {
      ExecPrints(c);
      ExecIsPipe(c, PrintExec(c));
      assert IsAmp(c, PrintExec(c));
    }
  }

  lemma {:induction false} WrappedPrintable(c: Cmd, ts: seq<Tok>)
    requires Printable(c)
    ensures Printable(Wrapped(c, ts))
    decreases |ts|
  {
    if ts != [] {
      if RedirSym(ts[0]) {
        if |ts| >= 2 && ts[1].Word? {
          WrappedPrintable(Redirected(c, ts[0], ts[1].span), ts[2..]);
        }
      } else {
        WrappedPrintable(c, ts[1..]);
      }
    }
  }

  lemma {:induction false} ExecPrintable(c: Cmd, ts: seq<Tok>)
    requires IsExec(c, ts)
    ensures Printable(c)
    decreases |ts|, 1
  {
    if IsSimple(c, ts) {
      WrappedPrintable(Exec(Args(ts)), ts);
    } else {
      assert IsBlock(c, ts);
      var d: Cmd, k: nat :| Closes(c, d, ts, k) && IsLine(d, ts[1..k]);
      LinePrintable(d, ts[1..k]);
      WrappedPrintable(d, ts[k + 1..]);
    }
  }

  lemma {:induction false} PipePrintable(c: Cmd, ts: seq<Tok>)
    requires IsPipe(c, ts)
    ensures Printable(c)
    decreases |ts|, 2
  {
    if IsExec(c, ts) {
      ExecPrintable(c, ts);
    } else {
      var k: nat :| k < |ts| && ts[k] == Sym('|') && IsExec(c.left, ts[..k]) && IsPipe(c.right, ts[k + 1..]);
      ExecPrintable(c.left, ts[..k]);
      PipePrintable(c.right, ts[k + 1..]);
    }
  }

  lemma {:induction false} AmpPrintable(c: Cmd, ts: seq<Tok>)
    requires IsAmp(c, ts)
    ensures Printable(c)
    decreases |ts|, 3
  {
    if IsPipe(c, ts) {
      PipePrintable(c, ts);
    } else {
      AmpPrintable(c.cmd, ts[..|ts| - 1]);
    }
  }

  lemma {:induction false} LinePrintable(c: Cmd, ts: seq<Tok>)
    requires IsLine(c, ts)
    ensures Printable(c)
    decreases |ts|, 4
  {
    if IsAmp(c, ts) {
      AmpPrintable(c, ts);
    } else {
      var k: nat :| k < |ts| && ts[k] == Sym(';') && IsAmp(c.left, ts[..k]) && IsLine(c.right, ts[k + 1..]);
      AmpPrintable(c.left, ts[..k]);
      LinePrintable(c.right, ts[k + 1..]);
    }
  }

  /** The commands that some tokens derive are the printable ones: no tokens derive another, and the tokens printed
      for one derive it. */
  lemma PrintedIsParsed(c: Cmd)
    ensures forall ts :: IsLine(c, ts) ==> Printable(c)
    ensures Printable(c) ==> IsLine(c, PrintLine(c))
  {
    if Printable(c) {
      LinePrints(c);
    }
    forall ts | IsLine(c, ts)
      ensures Printable(c)
    {
      LinePrintable(c, ts);
    }
  }
}
