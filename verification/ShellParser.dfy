/** The shell's parser: a cursor that moves along the line, and a buffer that gets its terminators when
    the whole line has been parsed. */
module ShellParser {
  import opened Wrappers
  import opened ShellSpec
  import opened ShellMeaning
  import opened ShellUnique

  /** What gettoken returns for a token. */
  function Code(tok: Tok): char {
    match tok
    case Word(_) => 'a'
    case Sym(c) => c
  }

  class Parser {
    const buf: array<char>
    const es: nat
    var s: nat

    /** The line in the buffer ends with the first NUL, and the cursor is inside it. */
    ghost predicate Valid()
      reads this, buf
    {
      es < buf.Length && s <= es && buf[es] == '\0' && forall i :: 0 <= i < es ==> buf[i] != '\0'
    }

    ghost function Text(): string
      requires es <= buf.Length
      reads this, buf
    {
      buf[..es]
    }

    /** A buffer of some size with a line in it. */
    constructor (line: string, size: nat)
      requires |line| < size && forall i :: 0 <= i < |line| ==> line[i] != '\0'
      ensures Valid() && fresh(buf) && s == 0 && es == |line| && buf.Length == size && Text() == line
    {
      var b := new char[size](i => '\0');
      for i := 0 to |line|
        invariant forall j :: 0 <= j < i ==> b[j] == line[j]
      {
        b[i] := line[i];
      }
      b[|line|] := '\0';
      buf := b;
      es := |line|;
      s := 0;
    }

    method SkipBlanks(from: nat) returns (r: nat)
      requires Valid() && from <= es
      ensures r == Skip(Text(), from)
      ensures from <= r <= es && (forall i :: from <= i < r ==> buf[i] in " \t\r\n\U{0B}")
      ensures buf[r] !in " \t\r\n\U{0B}"
    {
      r := from;
      while r < es && IsSpace(buf[r])
        invariant from <= r <= es && Skip(Text(), from) == Skip(Text(), r)
      {
        r := r + 1;
      }
    }

    /** The token at q, where there is no blank. */
    method Scan(q: nat) returns (tok: char, eq: nat)
      requires Valid() && q <= es && (q < es ==> !IsSpace(buf[q]))
      ensures q == es ==> tok == '\0' && eq == es
      ensures q < es ==> eq == TokEnd(Text(), q) && tok == Code(TokAt(Text(), q))
      ensures tok == 'a' ==> TokAt(Text(), q) == Word(Span(q, eq))
      ensures q < es ==> tok != '\0'
      ensures q < es && buf[q] in "|();&<" ==> tok == buf[q] && eq == q + 1
      ensures q < es && buf[q] == '>' && buf[q + 1] != '>' ==> tok == '>' && eq == q + 1
      ensures q < es && buf[q] == '>' && buf[q + 1] == '>' ==> tok == '+' && eq == q + 2
      ensures q < es && buf[q] !in "|();&<>" ==>
        && tok == 'a' && q < eq <= es && buf[eq] in " \t\r\n\U{0B}|();&<>\0"
        && forall i :: q <= i < eq ==> buf[i] !in " \t\r\n\U{0B}|();&<>\0"
    {
      eq := q;
      tok := buf[q];
      if tok == '\0' {
      } else if tok == '|' || tok == '(' || tok == ')' || tok == ';' || tok == '&' || tok == '<' {
        eq := eq + 1;
      } else if tok == '>' {
        eq := eq + 1;
        if buf[eq] == '>' {
          tok := '+';
          eq := eq + 1;
        }
      } else {
        tok := 'a';
        while eq < es && !IsSpace(buf[eq]) && !IsSymbol(buf[eq])
          invariant q <= eq <= es && WordEnd(Text(), q) == WordEnd(Text(), eq)
        {
          eq := eq + 1;
        }
      }
    }

    /** gettoken: the next token and its stretch, or NUL at the end of the line; the cursor moves on to the
        token after it. */
    method Gettoken() returns (tok: char, q: nat, eq: nat, ghost what: Tok)
      requires Valid()
      modifies `s
      ensures Valid() && old(s) <= s
      ensures tok == '\0' ==> s == es && Between(Text(), old(s), s, [])
      ensures tok != '\0' ==> old(s) < s && Between(Text(), old(s), s, [what]) && tok == Code(what)
      ensures tok == 'a' ==> what == Word(Span(q, eq))
      ensures Skip(Text(), old(s)) < es ==> tok != '\0' && Starts(what, buf[Skip(Text(), old(s))])
    {
      hide Between;
      q := SkipBlanks(s);
      tok, eq := Scan(q);
      what := Sym('\0');
      BetweenNone(Text(), s);
      if q < es {
        BetweenOne(Text(), s);
        what := TokAt(Text(), q);
      } else {
        BetweenSkip(Text(), s, [], s);
      }
      s := SkipBlanks(eq);
    }

    /** peek: whether the next token starts with one of the given symbols. */
    method Peek(toks: string) returns (r: bool)
      requires Valid()
      modifies `s
      ensures Valid() && old(s) <= s && Between(Text(), old(s), s, [])
      ensures s == Skip(Text(), old(s)) == Skip(Text(), s)
      ensures r <==> s < es && buf[s] in toks
    {
      hide Between;
      SkipTwice(Text(), s);
      BetweenNone(Text(), s);
      BetweenSkip(Text(), s, [], s);
      s := SkipBlanks(s);
      r := buf[s] != '\0' && buf[s] in toks;
    }

    /** peek and, if it is the symbol c, gettoken. */
    method Accept(c: char) returns (r: bool)
      requires Valid() && IsSymbol(c) && c != '>'
      modifies `s
      ensures Valid() && old(s) <= s && Between(Text(), old(s), s, if r then [Sym(c)] else [])
      ensures r ==> old(s) < s
      ensures r <==> Head(Lex(Text(), old(s)), c)
    {
      hide Between;
      HeadAhead(Text(), s, c);
      r := Peek([c]);
      if r {
        ghost var mid := s;
        var _, _, _, what := Gettoken();
        BetweenMore(Text(), old(s), mid, s, [], [what]);
        assert [] + [what] == [Sym(c)];
      }
    }

    /** parseredirs: the command inside the redirections that come next. */
    method Parseredirs(cmd: Cmd) returns (r: Option<Cmd>, ghost ts: seq<Tok>)
      requires Valid()
      modifies `s
      ensures Valid() && old(s) <= s
      ensures RedirToks(ts) && ts <= Lex(Text(), old(s))
      ensures r.Some? ==> Between(Text(), old(s), s, ts) && NotRedir(Lex(Text(), s)) && r.value == Wrapped(cmd, ts)
      ensures r.Some? ==> Inside(cmd, r.value, ts)
      ensures r.None? ==> BadRedir(Lex(Text(), old(s))[|ts|..])
    {
      hide Between, RedirToks, Wrapped, Lex, Inside;
      var c := cmd;
      ghost var t := Text();
      ts := [];
      NoRedirs(c);
      BetweenNone(t, s);
      while true
        invariant Valid() && old(s) <= s && Between(t, old(s), s, ts) && RedirToks(ts) && c == Wrapped(cmd, ts)
        decreases es - s
      {
        ghost var s0 := s;
        var more := Peek("<>");
        BetweenMore(t, old(s), s0, s, ts, []);
        assert ts + [] == ts;
        Rest(t, old(s), s, ts);
        RedirAhead(t, s);
        if !more {
          RedirsInside(cmd, ts);
          return Some(c), ts;
        }
        ghost var s1 := s;
        var tok, _, _, sym := Gettoken();
        ghost var s2 := s;
        var a, q, eq, word := Gettoken();
        Rest(t, s1, s2, [sym]);
        Rest(t, s2, s, if a == '\0' then [] else [word]);
        if a != 'a' {
          AtEnd(t);
          return None, ts;
        }
        BetweenMore(t, s1, s2, s, [sym], [word]);
        BetweenMore(t, old(s), s1, s, ts, [sym, word]);
        RedirsMore(ts, sym, Span(q, eq), cmd);
        c := if tok == '<' then Redir(c, Span(q, eq), ForReading, 0) else Redir(c, Span(q, eq), ForWriting, 1);
        ts := ts + [sym, word];
      }
    }

    /** parseline. */
    method Parseline() returns (r: Option<Cmd>, ghost ts: seq<Tok>)
      requires Valid()
      modifies `s
      ensures Valid() && old(s) <= s
      ensures r.Some? ==> Between(Text(), old(s), s, ts) && IsLine(r.value, ts)
      ensures OnlyLine(Lex(Text(), old(s)), r, |ts|)
      decreases es - s, 5
    {
      hide Between, Lex, IsAmp, IsLine, OnlyAmp, OnlyLine;
      ghost var t := Text();
      r, ts := Parseamps();
      ghost var l, e := Lex(t, old(s)), r;
      if r.None? {
        LineEnds(l, r, |ts|);
        return;
      }
      Rest(t, old(s), s, ts);
      ghost var s0 := s;
      var semi := Accept(';');
      if !semi {
        BetweenMore(t, old(s), s0, s, ts, []);
        assert ts + [] == ts;
        AmpIsLine(r.value, ts);
        LineEnds(l, r, |ts|);
        return;
      }
      BetweenMore(t, old(s), s0, s, ts, [Sym(';')]);
      Rest(t, old(s), s, ts + [Sym(';')]);
      s0 := s;
      var rest, rs := Parseline();
      LineGoesOn(l, r.value, |ts|, rest, |rs|);
      if rest.None? {
        return None, ts + [Sym(';')] + rs;
      }
      LineOfTwo(r.value, rest.value, ts, rs);
      BetweenMore(t, old(s), s0, s, ts + [Sym(';')], rs);
      r, ts := Some(List(r.value, rest.value)), ts + [Sym(';')] + rs;
    }

    /** The first part of parseline: a pipeline and the &s after it. */
    method Parseamps() returns (r: Option<Cmd>, ghost ts: seq<Tok>)
      requires Valid()
      modifies `s
      ensures Valid() && old(s) <= s
      ensures r.Some? ==> Between(Text(), old(s), s, ts) && IsAmp(r.value, ts)
      ensures OnlyAmp(Lex(Text(), old(s)), r, |ts|)
      decreases es - s, 4
    {
      hide Between, Lex, IsAmp, IsPipe, OnlyPipe, OnlyAmp;
      ghost var t := Text();
      r, ts := Parsepipe();
      ghost var l, e, n := Lex(t, old(s)), r, |ts|;
      if r.None? {
        AmpFails(l, n, n);
        return;
      }
      PipeIsAmp(r.value, ts);
      Rest(t, old(s), s, ts);
      ghost var s0 := s;
      var amp := Accept('&');
      while amp
        invariant Valid() && old(s) <= s0 <= s && r.Some? && IsAmp(r.value, ts)
        invariant Between(t, old(s), s0, ts) && Between(t, s0, s, if amp then [Sym('&')] else [])
        invariant amp <==> Head(Lex(t, s0), '&')
        invariant n <= |ts| <= |l| && r.value == Backs(e.value, |ts| - n) && l[|ts|..] == Lex(t, s0)
        invariant forall i :: n <= i < |ts| ==> l[i] == Sym('&')
        decreases es - s, amp
      {
        AmpAfter(r.value, ts);
        BetweenMore(t, old(s), s0, s, ts, [Sym('&')]);
        Rest(t, old(s), s, ts + [Sym('&')]);
        r, ts := Some(Back(r.value)), ts + [Sym('&')];
        s0 := s;
        amp := Accept('&');
      }
      BetweenMore(t, old(s), s0, s, ts, []);
      assert ts + [] == ts;
      AmpDone(l, e.value, n, |ts| - n);
    }

    /** parsepipe. */
    method Parsepipe() returns (r: Option<Cmd>, ghost ts: seq<Tok>)
      requires Valid()
      modifies `s
      ensures Valid() && old(s) <= s
      ensures r.Some? ==> Between(Text(), old(s), s, ts) && IsPipe(r.value, ts)
      ensures OnlyPipe(Lex(Text(), old(s)), r, |ts|)
      decreases es - s, 3
    {
      hide Between, Lex, IsExec, OnlyExec, OnlyPipe;
      ghost var t := Text();
      r, ts := Parseexec();
      ghost var l := Lex(t, old(s));
      if r.None? {
        PipeEnds(l, r, |ts|);
        return;
      }
      Rest(t, old(s), s, ts);
      ghost var s0 := s;
      var bar := Accept('|');
      if !bar {
        BetweenMore(t, old(s), s0, s, ts, []);
        assert ts + [] == ts;
        PipeEnds(l, r, |ts|);
        return;
      }
      BetweenMore(t, old(s), s0, s, ts, [Sym('|')]);
      Rest(t, old(s), s, ts + [Sym('|')]);
      s0 := s;
      var rest, rs := Parsepipe();
      PipeGoesOn(l, r.value, |ts|, rest, |rs|);
      if rest.None? {
        return None, ts + [Sym('|')] + rs;
      }
      PipeOfTwo(r.value, rest.value, ts, rs);
      BetweenMore(t, old(s), s0, s, ts + [Sym('|')], rs);
      r, ts := Some(Pipe(r.value, rest.value)), ts + [Sym('|')] + rs;
    }

    /** parseblock, after the opening parenthesis. */
    method Parseblock() returns (r: Option<Cmd>, ghost ts: seq<Tok>)
      requires Valid()
      modifies `s
      ensures Valid() && old(s) <= s
      ensures r.Some? ==> Between(Text(), old(s), s, ts) && IsBlock(r.value, [Sym('(')] + ts)
      ensures OnlyBlock([Sym('(')] + Lex(Text(), old(s)), r, 1 + |ts|)
      decreases es - s, 6
    {
      hide Between, Lex, Head, IsLine, IsBlock, RedirToks, Wrapped, OnlyLine, OnlyBlock, NotRedir, BadRedir;
      ghost var t := Text();
      var inner, a := Parseline();
      ts := a;
      if inner.None? {
        BlockFails([Sym('(')] + Lex(t, old(s)), inner, |a|, 1 + |ts|);
        return None, ts;
      }
      ghost var s0 := s;
      var close := Accept(')');
      if !close {
        BlockOpen(t, old(s), s0, inner.value, a, 1 + |ts|);
        return None, ts;
      }
      BetweenMore(t, old(s), s0, s, a, [Sym(')')]);
      s0 := s;
      ghost var b: seq<Tok>;
      r, b := Parseredirs(inner.value);
      if r.None? {
        BlockBad(t, old(s), s0, inner.value, a, b, 1 + |ts|);
      } else {
        BlockOf(inner.value, a, b);
        BlockGood(t, old(s), s0, s, inner.value, a, b);
        BetweenMore(t, old(s), s0, s, a + [Sym(')')], b);
        ts := a + [Sym(')')] + b;
        assert [Sym('(')] + ts == [Sym('(')] + a + [Sym(')')] + b;
      }
    }

    /** parseexec. */
    method Parseexec() returns (r: Option<Cmd>, ghost ts: seq<Tok>)
      requires Valid()
      modifies `s
      ensures Valid() && old(s) <= s
      ensures r.Some? ==> Between(Text(), old(s), s, ts) && IsExec(r.value, ts)
      ensures OnlyExec(Lex(Text(), old(s)), r, |ts|)
      decreases es - s, 1
    {
      hide Between, Lex, IsBlock, IsSimple, OnlyBlock, OnlySimple, OnlyExec;
      ghost var t := Text();
      var block := Accept('(');
      ghost var s0 := s;
      if block {
        Joined(t, old(s), s, [Sym('(')]);
        r, ts := Parseblock();
        if r.Some? {
          BetweenMore(t, old(s), s0, s, [Sym('(')], ts);
        }
        ts := [Sym('(')] + ts;
        ExecOfBlock(Lex(t, old(s)), r, |ts|);
        return;
      }
      Same(t, old(s), s);
      r, ts := Parsesimple();
      ExecOfSimple(Lex(t, old(s)), r, |ts|);
      if r.Some? {
        BetweenMore(t, old(s), s0, s, [], ts);
        assert [] + ts == ts;
      }
    }

    /** The rest of parseexec: arguments and redirections. */
    method Parsesimple() returns (r: Option<Cmd>, ghost ts: seq<Tok>)
      requires Valid()
      modifies `s
      ensures Valid() && old(s) <= s
      ensures r.Some? ==> Between(Text(), old(s), s, ts) && IsSimple(r.value, ts)
      ensures OnlySimple(Lex(Text(), old(s)), r, |ts|)
    {
      hide Between, Lex, SoFar, IsSimple, Wrapped, RedirToks, Regrown, OnlySimple, Reading, NotRedir, AfterExec;
      ghost var t := Text();
      ReadingFirst(t, s);
      r, ts := Parseredirs(Exec([]));
      if r.None? {
        ReadingWrong(t, old(s), old(s), [], ts, |ts|);
        return;
      }
      SoFarNone(r.value, ts);
      ReadingRedirs(t, old(s), old(s), s, [], ts);
      assert [] + ts == ts;
      var argv := [];
      while true
        invariant Valid() && old(s) <= s && r.Some? && Reading(t, old(s), s, ts)
        invariant SoFar(r.value, argv, ts) && |argv| < MAXARGS && NotRedir(Lex(t, s))
        decreases es - s
      {
        ghost var s0 := s;
        var stop := Peek("|)&;");
        Same(t, s0, s);
        ReadingOn(t, old(s), s0, s, ts);
        if stop {
          EndAhead(t, s);
          break;
        }
        s0 := s;
        var tok, q, eq, word := Gettoken();
        if tok == '\0' {
          ReadingOn(t, old(s), s0, s, ts);
          AtEnd(t);
          break;
        }
        if tok != 'a' {
          NoRedirs(r.value);
          NextWrong(t, s0, s, word);
          ReadingWrong(t, old(s), s0, ts, [], |ts|);
          return None, ts;
        }
        SoFarWord(r.value, argv, ts, Span(q, eq));
        ReadingWord(t, old(s), s0, s, ts, Span(q, eq));
        argv := argv + [Span(q, eq)];
        ts := ts + [word];
        ghost var c := Regrown(r.value, argv);
        if |argv| >= MAXARGS {
          ReadingTooMany(t, old(s), s, ts, c, argv, |ts|);
          return None, ts;
        }
        s0 := s;
        ghost var rs: seq<Tok>;
        r, rs := Parseredirs(Regrown(r.value, argv));
        if r.None? {
          ReadingWrong(t, old(s), s0, ts, rs, |ts|);
          return None, ts;
        }
        SoFarRedirs(c, argv, ts, rs);
        ReadingRedirs(t, old(s), s0, s, ts, rs);
        ts := ts + rs;
      }
      SoFarDone(r.value, argv, ts);
      ReadingEnds(t, old(s), s, ts, r.value);
    }

    /** nulterminate: a NUL at the end of each string the command refers to, and nowhere else. */
    method Nulterminate(cmd: Cmd)
      requires forall p: nat :: EndsAt(cmd, p) ==> p < buf.Length
      modifies buf
      ensures forall p :: 0 <= p < buf.Length ==> buf[p] == if EndsAt(cmd, p) then '\0' else old(buf[p])
      decreases cmd
    {
      match cmd
      case Exec(argv) =>
        for i := 0 to |argv|
          invariant forall p :: 0 <= p < buf.Length ==>
            buf[p] == if (exists j :: 0 <= j < i && argv[j].eq == p) then '\0' else old(buf[p])
        {
          assert EndsAt(cmd, argv[i].eq);
          buf[argv[i].eq] := '\0';
        }
      case Redir(d, file, _, _) =>
        assert forall p: nat :: EndsAt(d, p) ==> EndsAt(cmd, p);
        Nulterminate(d);
        assert EndsAt(cmd, file.eq);
        buf[file.eq] := '\0';
      case Pipe(l, r) =>
        assert forall p: nat :: EndsAt(l, p) || EndsAt(r, p) ==> EndsAt(cmd, p);
        Nulterminate(l);
        Nulterminate(r);
      case List(l, r) =>
        assert forall p: nat :: EndsAt(l, p) || EndsAt(r, p) ==> EndsAt(cmd, p);
        Nulterminate(l);
        Nulterminate(r);
      case Back(d) =>
        assert forall p: nat :: EndsAt(d, p) ==> EndsAt(cmd, p);
        Nulterminate(d);
    }

    /** parsecmd: None is the shell's complaint, and it means that the line derives no command. An accepted
        line is consumed to its end and derives the command and no other; each word of the line is in the
        command exactly once; and in the buffer every string of the command reads as it stood in the line.
        A redirection is in the command exactly if two tokens of the line ask for it. What the buffer holds
        after the line is left alone. */
    method Parsecmd() returns (r: Option<Cmd>)
      requires Valid() && s == 0
      modifies `s, buf
      ensures r.None? ==> buf[..] == old(buf[..])
      ensures r.Some? ==> s == es
      ensures forall c :: r == Some(c) <==> IsLine(c, Lex(old(Text()), 0))
      ensures r.Some? ==> forall x :: Uses(r.value, x) == if IsWordOf(old(Text()), x) then 1 else 0
      ensures r.Some? ==> forall x: Redirection ::
        HasRedir(r.value, x) <==> exists k: nat :: AskedAt(Lex(old(Text()), 0), k, x)
      ensures r.Some? ==> forall x :: Uses(r.value, x) > 0 ==> StringAt(buf[..], old(Text()), x)
      ensures forall p :: es <= p < buf.Length ==> buf[p] == old(buf[p])
    {
      hide Lex, Between, IsLine, Uses, OnlyLine, HasRedir;
      ghost var t := Text();
      ghost var ts: seq<Tok>;
      r, ts := Parseline();
      forall c | IsLine(c, Lex(t, 0))
        ensures r == Some(c) && |ts| == |Lex(t, 0)|
      {
        WholeLine(Lex(t, 0), r, |ts|, c);
      }
      if r.None? {
        return;
      }
      ghost var s0 := s;
      var _ := Peek("");
      Rest(t, 0, s0, ts);
      if s != es {
        MoreToRead(t, s0);
        return None;
      }
      BetweenMore(t, 0, s0, s, ts, []);
      AllOf(t, ts + []);
      assert ts + [] == ts;
      forall p: nat | EndsAt(r.value, p)
        ensures p <= es
      {
        EndsInside(t, r.value, p);
      }
      Nulterminate(r.value);
      forall x: Redirection
        ensures HasRedir(r.value, x) <==> Asked(Lex(t, 0), x)
      {
        LineAsks(r.value, Lex(t, 0), x);
      }
      forall x
        ensures Uses(r.value, x) == if IsWordOf(t, x) then 1 else 0
        ensures Uses(r.value, x) > 0 ==> StringAt(buf[..], t, x)
      {
        LineOnce(t, r.value, x);
        if Uses(r.value, x) > 0 {
          StringsIntact(t, buf[..], r.value, x);
        }
      }
    }
  }

  /** The string at x's start in the buffer is x's stretch of the line. */
  predicate StringAt(b: seq<char>, t: string, x: Span) {
    x.q <= x.eq <= |t| && x.q <= |b| && CString(b, x.q) == t[x.q..x.eq]
  }

  /** The token starts with c. */
  predicate Starts(tok: Tok, c: char) {
    if c == '>' then RedirSym(tok)
    else if IsSymbol(c) then tok == Sym(c)
    else tok.Word?
  }

  // ---- The tokens ahead --------------------------------------------------------------------

  lemma Rest(t: string, a: nat, b: nat, ts: seq<Tok>)
    requires Between(t, a, b, ts)
    ensures ts <= Lex(t, a) && Lex(t, a)[|ts|..] == Lex(t, b)
  {
  }

  lemma Joined(t: string, a: nat, b: nat, ts: seq<Tok>)
    requires Between(t, a, b, ts)
    ensures Lex(t, a) == ts + Lex(t, b)
  {
  }

  lemma Same(t: string, a: nat, b: nat)
    requires Between(t, a, b, [])
    ensures Lex(t, a) == Lex(t, b)
  {
    assert [] + Lex(t, b) == Lex(t, b);
  }

  /** More of the tokens ahead. */
  lemma Further(l: seq<Tok>, ts: seq<Tok>, rs: seq<Tok>)
    requires ts <= l && rs <= l[|ts|..]
    ensures ts + rs <= l && l[|ts|..|ts| + |rs|] == rs && l[|ts|..][|rs|..] == l[|ts| + |rs|..]
  {
    assert l == ts + l[|ts|..];
  }

  lemma AtEnd(t: string)
    ensures Lex(t, |t|) == [] && AfterExec(Lex(t, |t|))
  {
  }

  lemma HeadAhead(t: string, i: nat, c: char)
    requires i <= |t| && IsSymbol(c) && c != '>'
    ensures Head(Lex(t, i), c) <==> Skip(t, i) < |t| && t[Skip(t, i)] == c
  {
  }

  lemma RedirAhead(t: string, i: nat)
    requires i <= |t|
    ensures NotRedir(Lex(t, i)) <==> !(Skip(t, i) < |t| && t[Skip(t, i)] in "<>")
  {
  }

  lemma EndAhead(t: string, i: nat)
    requires i <= |t| && Skip(t, i) < |t| && t[Skip(t, i)] in "|)&;"
    ensures AfterExec(Lex(t, i))
  {
  }

  lemma MoreToRead(t: string, i: nat)
    requires i <= |t| && Skip(t, i) < |t|
    ensures Lex(t, i) != []
  {
  }

  /** A block that is not closed. */
  lemma BlockOpen(t: string, a: nat, b: nat, d: Cmd, ts: seq<Tok>, m: nat)
    requires Between(t, a, b, ts) && OnlyLine(Lex(t, a), Some(d), |ts|) && !Head(Lex(t, b), ')')
    ensures OnlyBlock([Sym('(')] + Lex(t, a), None, m)
  {
    hide Lex, OnlyLine, OnlyBlock;
    var l := [Sym('(')] + Lex(t, a);
    assert l[1..] == Lex(t, a);
    Rest(t, a, b, ts);
    BlockFails(l, Some(d), |ts|, m);
  }

  /** A block with a redirection that has no file. */
  lemma BlockBad(t: string, a: nat, b: nat, d: Cmd, ts: seq<Tok>, rs: seq<Tok>, m: nat)
    requires Between(t, a, b, ts + [Sym(')')]) && OnlyLine(Lex(t, a), Some(d), |ts|)
    requires RedirToks(rs) && rs <= Lex(t, b) && BadRedir(Lex(t, b)[|rs|..])
    ensures OnlyBlock([Sym('(')] + Lex(t, a), None, m)
  {
    hide Lex, OnlyLine, OnlyBlock, RedirToks, BadRedir;
    var l := [Sym('(')] + Lex(t, a);
    assert l[1..] == Lex(t, a);
    Rest(t, a, b, ts + [Sym(')')]);
    assert l[|ts| + 2..] == Lex(t, b);
    BlockUnfinished(l, d, |ts|, Lex(t, b), rs, m);
  }

  lemma BlockGood(t: string, a: nat, b: nat, c: nat, d: Cmd, ts: seq<Tok>, rs: seq<Tok>)
    requires Between(t, a, b, ts + [Sym(')')]) && OnlyLine(Lex(t, a), Some(d), |ts|)
    requires Between(t, b, c, rs) && RedirToks(rs) && NotRedir(Lex(t, c))
    ensures OnlyBlock([Sym('(')] + Lex(t, a), Some(Wrapped(d, rs)), |ts| + 2 + |rs|)
  {
    hide Lex, OnlyLine, OnlyBlock, RedirToks, NotRedir;
    var l := [Sym('(')] + Lex(t, a);
    assert l[1..] == Lex(t, a);
    Rest(t, a, b, ts + [Sym(')')]);
    Rest(t, b, c, rs);
    assert l[|ts| + 2..] == Lex(t, b);
    BlockDone(l, d, |ts|, Lex(t, b), rs);
  }

  lemma AmpIsLine(c: Cmd, ts: seq<Tok>)
    requires IsAmp(c, ts)
    ensures IsLine(c, ts)
  {
  }

  /** The tokens of a simple command so far: whatever command can be read goes on from here. */
  ghost predicate Reading(t: string, a: nat, b: nat, ts: seq<Tok>) {
    Between(t, a, b, ts) && GoesOn(Lex(t, a), |ts|)
  }

  lemma ReadingFirst(t: string, a: nat)
    requires a <= |t|
    ensures Reading(t, a, a, [])
  {
    GoesOnFirst(Lex(t, a));
  }

  lemma ReadingOn(t: string, a: nat, b: nat, c: nat, ts: seq<Tok>)
    requires Reading(t, a, b, ts) && Between(t, b, c, [])
    ensures Reading(t, a, c, ts)
  {
    Same(t, b, c);
  }

  lemma ReadingWord(t: string, a: nat, b: nat, c: nat, ts: seq<Tok>, w: Span)
    requires Reading(t, a, b, ts) && Between(t, b, c, [Word(w)])
    ensures Reading(t, a, c, ts + [Word(w)])
  {
    hide Lex, GoesOn;
    BetweenMore(t, a, b, c, ts, [Word(w)]);
    assert Lex(t, a)[|ts|] == Word(w);
    GoesOnWord(Lex(t, a), |ts|);
  }

  lemma ReadingRedirs(t: string, a: nat, b: nat, c: nat, ts: seq<Tok>, rs: seq<Tok>)
    requires Reading(t, a, b, ts) && Between(t, b, c, rs) && RedirToks(rs)
    ensures Reading(t, a, c, ts + rs)
  {
    hide Lex, GoesOn, RedirToks;
    BetweenMore(t, a, b, c, ts, rs);
    Further(Lex(t, a), ts, rs);
    GoesOnRedirs(Lex(t, a), |ts|, rs);
  }

  lemma ReadingEnds(t: string, a: nat, b: nat, ts: seq<Tok>, c: Cmd)
    requires Reading(t, a, b, ts) && AfterExec(Lex(t, b)) && IsSimple(c, ts)
    ensures Between(t, a, b, ts) && OnlySimple(Lex(t, a), Some(c), |ts|)
  {
    hide Lex, GoesOn, IsSimple, OnlySimple, AfterExec;
    Rest(t, a, b, ts);
    assert Lex(t, a)[..|ts|] == ts;
    SimpleDone(Lex(t, a), c, |ts|);
  }

  lemma ReadingWrong(t: string, a: nat, b: nat, ts: seq<Tok>, rs: seq<Tok>, m: nat)
    requires Reading(t, a, b, ts) && RedirToks(rs) && rs <= Lex(t, b) && Wrong(Lex(t, b)[|rs|..])
    ensures OnlySimple(Lex(t, a), None, m)
  {
    hide Lex, GoesOn, RedirToks, OnlySimple, Wrong;
    Rest(t, a, b, ts);
    Further(Lex(t, a), ts, rs);
    GoesOnRedirs(Lex(t, a), |ts|, rs);
    SimpleWrong(Lex(t, a), |ts| + |rs|, m);
  }

  lemma ReadingTooMany(t: string, a: nat, b: nat, ts: seq<Tok>, c: Cmd, argv: seq<Span>, m: nat)
    requires Reading(t, a, b, ts) && SoFar(c, argv, ts) && |argv| >= MAXARGS
    ensures OnlySimple(Lex(t, a), None, m)
  {
    hide Lex, GoesOn, OnlySimple;
    Rest(t, a, b, ts);
    assert Lex(t, a)[..|ts|] == ts;
    SimpleTooMany(Lex(t, a), |ts|, m);
  }

  /** A symbol that is neither a redirection nor the end of a command. */
  lemma NextWrong(t: string, a: nat, b: nat, sym: Tok)
    requires Between(t, a, b, [sym]) && NotRedir(Lex(t, a)) && !sym.Word?
    requires Skip(t, a) < |t| && t[Skip(t, a)] !in "|)&;"
    ensures Wrong(Lex(t, a)[0..])
  {
  }

  lemma NoRedirs(c: Cmd)
    ensures RedirToks([]) && Wrapped(c, []) == c
  {
  }

  lemma PipeIsAmp(c: Cmd, ts: seq<Tok>)
    requires IsPipe(c, ts)
    ensures IsAmp(c, ts)
  {
  }

  lemma AllOf(t: string, ts: seq<Tok>)
    requires Between(t, 0, |t|, ts)
    ensures Lex(t, 0) == ts
  {
  }

  lemma SoFarNone(c: Cmd, ts: seq<Tok>)
    requires RedirToks(ts) && c == Wrapped(Exec([]), ts)
    ensures SoFar(c, [], ts)
  {
    RedirsAreSimple(ts);
  }

  lemma SoFarDone(c: Cmd, argv: seq<Span>, ts: seq<Tok>)
    requires SoFar(c, argv, ts) && |argv| < MAXARGS
    ensures IsSimple(c, ts)
  {
  }
}
