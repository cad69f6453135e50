/** A line has at most one derivation, and reading it from left to right finds it: what can follow a
    command tells where it ends. */
module ShellUnique {
  import opened Wrappers
  import opened ShellSpec

  // ---- What may follow --------------------------------------------------------------------

  predicate Head(l: seq<Tok>, c: char) {
    l != [] && l[0] == Sym(c)
  }

  predicate AfterLine(l: seq<Tok>) {
    l == [] || Head(l, ')')
  }

  predicate AfterAmp(l: seq<Tok>) {
    AfterLine(l) || Head(l, ';')
  }

  predicate AfterPipe(l: seq<Tok>) {
    AfterAmp(l) || Head(l, '&')
  }

  predicate AfterExec(l: seq<Tok>) {
    AfterPipe(l) || Head(l, '|')
  }

  /** The first k tokens of l derive c, as a command of each kind, and what follows lets it end there. */
  ghost predicate SimpleUpTo(l: seq<Tok>, c: Cmd, k: nat) {
    k <= |l| && IsSimple(c, l[..k]) && AfterExec(l[k..])
  }

  ghost predicate BlockUpTo(l: seq<Tok>, c: Cmd, k: nat) {
    k <= |l| && IsBlock(c, l[..k]) && AfterExec(l[k..])
  }

  ghost predicate ExecUpTo(l: seq<Tok>, c: Cmd, k: nat) {
    k <= |l| && IsExec(c, l[..k]) && AfterExec(l[k..])
  }

  ghost predicate PipeUpTo(l: seq<Tok>, c: Cmd, k: nat) {
    k <= |l| && IsPipe(c, l[..k]) && AfterPipe(l[k..])
  }

  ghost predicate AmpUpTo(l: seq<Tok>, c: Cmd, k: nat) {
    k <= |l| && IsAmp(c, l[..k]) && AfterAmp(l[k..])
  }

  ghost predicate LineUpTo(l: seq<Tok>, c: Cmd, k: nat) {
    k <= |l| && IsLine(c, l[..k]) && AfterLine(l[k..])
  }

  /** Reading l gives r and takes n tokens, and no other command can be read. */
  ghost predicate OnlySimple(l: seq<Tok>, r: Option<Cmd>, n: nat) {
    forall c: Cmd, k: nat :: SimpleUpTo(l, c, k) ==> r == Some(c) && n == k
  }

  ghost predicate OnlyBlock(l: seq<Tok>, r: Option<Cmd>, n: nat) {
    forall c: Cmd, k: nat :: BlockUpTo(l, c, k) ==> r == Some(c) && n == k
  }

  ghost predicate OnlyExec(l: seq<Tok>, r: Option<Cmd>, n: nat) {
    forall c: Cmd, k: nat :: ExecUpTo(l, c, k) ==> r == Some(c) && n == k
  }

  ghost predicate OnlyPipe(l: seq<Tok>, r: Option<Cmd>, n: nat) {
    forall c: Cmd, k: nat :: PipeUpTo(l, c, k) ==> r == Some(c) && n == k
  }

  ghost predicate OnlyAmp(l: seq<Tok>, r: Option<Cmd>, n: nat) {
    forall c: Cmd, k: nat :: AmpUpTo(l, c, k) ==> r == Some(c) && n == k
  }

  ghost predicate OnlyLine(l: seq<Tok>, r: Option<Cmd>, n: nat) {
    forall c: Cmd, k: nat :: LineUpTo(l, c, k) ==> r == Some(c) && n == k
  }

  // ---- Simple commands --------------------------------------------------------------------

  /** The tokens up to k can be a simple command that ends there. */
  predicate Candidate(l: seq<Tok>, k: nat) {
    k <= |l| && SimpleToks(l[..k]) && AfterExec(l[k..])
  }

  /** Every candidate goes on from n. */
  ghost predicate GoesOn(l: seq<Tok>, n: nat) {
    n <= |l| && forall k: nat :: Candidate(l, k) ==> n <= k && SimpleToks(l[n..k])
  }

  lemma GoesOnFirst(l: seq<Tok>)
    ensures GoesOn(l, 0)
  {
    forall k: nat | Candidate(l, k)
      ensures SimpleToks(l[0..k])
    {
      assert l[0..k] == l[..k];
    }
  }

  lemma GoesOnWord(l: seq<Tok>, n: nat)
    requires GoesOn(l, n) && n < |l| && l[n].Word?
    ensures GoesOn(l, n + 1)
  {
    forall k: nat | Candidate(l, k)
      ensures n + 1 <= k && SimpleToks(l[n + 1..k])
    {
      assert l[k..] == [] || l[k..][0] == l[k];
      assert l[n..k][1..] == l[n + 1..k];
    }
  }

  lemma {:induction false} GoesOnRedirs(l: seq<Tok>, n: nat, rs: seq<Tok>)
    requires GoesOn(l, n) && RedirToks(rs) && n + |rs| <= |l| && l[n..n + |rs|] == rs
    ensures GoesOn(l, n + |rs|)
    decreases |rs|
  {
    if rs != [] {
      GoesOnRedir(l, n);
      assert l[n..n + |rs|][2..] == l[n + 2..n + |rs|];
      GoesOnRedirs(l, n + 2, rs[2..]);
    }
  }

  lemma GoesOnRedir(l: seq<Tok>, n: nat)
    requires GoesOn(l, n) && n + 2 <= |l| && RedirSym(l[n])
    ensures GoesOn(l, n + 2)
  {
    forall k: nat | Candidate(l, k)
      ensures n + 2 <= k && SimpleToks(l[n + 2..k])
    {
      assert l[k..] == [] || l[k..][0] == l[k];
      assert l[n..k][2..] == l[n + 2..k];
    }
  }

  /** The next token ends a command. */
  lemma StopsHere(l: seq<Tok>, n: nat, k: nat)
    requires n < k <= |l| && AfterExec(l[n..])
    ensures !SimpleToks(l[n..k])
  {
    assert l[n..k][0] == l[n..][0];
  }

  /** The next token can neither go on nor end a command. */
  predicate Wrong(l: seq<Tok>) {
    l != [] && (l[0] == Sym('(') || BadRedir(l))
  }

  /** A redirection without a file. */
  predicate BadRedir(l: seq<Tok>) {
    l != [] && RedirSym(l[0]) && (|l| < 2 || !l[1].Word?)
  }

  lemma WrongHere(l: seq<Tok>, n: nat, k: nat)
    requires n <= k <= |l| && Wrong(l[n..])
    ensures !(SimpleToks(l[n..k]) && AfterExec(l[k..]))
  {
    if n < k {
      assert l[n..k][0] == l[n..][0];
      assert k >= n + 2 ==> l[n..k][1] == l[n..][1];
    }
  }

  lemma {:induction false} ArgsSplit(a: seq<Tok>, b: seq<Tok>)
    requires SimpleToks(a)
    ensures Args(a + b) == Args(a) + Args(b)
    decreases |a|
  {
    if a == [] {
      assert a + b == b;
    } else if RedirSym(a[0]) {
      ArgsSplit(a[2..], b);
      assert (a + b)[0] == a[0] && (a + b)[2..] == a[2..] + b;
    } else {
      ArgsSplit(a[1..], b);
      assert (a + b)[0] == a[0] && (a + b)[1..] == a[1..] + b;
      assert [a[0].span] + (Args(a[1..]) + Args(b)) == Args(a) + Args(b);
    }
  }

  /** Ten arguments are too many for any candidate. */
  lemma TooMany(l: seq<Tok>, n: nat, c: Cmd, k: nat)
    requires n <= k <= |l| && SimpleToks(l[..n]) && |Args(l[..n])| >= MAXARGS
    ensures !IsSimple(c, l[..k])
  {
    assert l[..k] == l[..n] + l[n..k];
    ArgsSplit(l[..n], l[n..k]);
  }

  lemma SimpleDone(l: seq<Tok>, c: Cmd, n: nat)
    requires GoesOn(l, n) && AfterExec(l[n..]) && IsSimple(c, l[..n])
    ensures OnlySimple(l, Some(c), n)
  {
    forall d: Cmd, k: nat | SimpleUpTo(l, d, k)
      ensures d == c && n == k
    {
      assert Candidate(l, k);
      if n < k {
        StopsHere(l, n, k);
      }
    }
  }

  lemma SimpleWrong(l: seq<Tok>, n: nat, m: nat)
    requires GoesOn(l, n) && Wrong(l[n..])
    ensures OnlySimple(l, None, m)
  {
    forall d: Cmd, k: nat
      ensures !SimpleUpTo(l, d, k)
    {
      assert Candidate(l, k) ==> n <= k;
      if n <= k <= |l| {
        WrongHere(l, n, k);
      }
    }
  }

  lemma SimpleTooMany(l: seq<Tok>, n: nat, m: nat)
    requires GoesOn(l, n) && SimpleToks(l[..n]) && |Args(l[..n])| >= MAXARGS
    ensures OnlySimple(l, None, m)
  {
    forall d: Cmd, k: nat
      ensures !SimpleUpTo(l, d, k)
    {
      assert Candidate(l, k) ==> n <= k;
      if n <= k <= |l| {
        TooMany(l, n, d, k);
      }
    }
  }

  // ---- Blocks --------------------------------------------------------------------

  predicate NotRedir(l: seq<Tok>) {
    l == [] || !RedirSym(l[0])
  }

  /** Redirections end in one place only. */
  lemma {:induction false} RedirsEnd(l: seq<Tok>, a: nat, k: nat)
    requires a <= |l| && k <= |l| && RedirToks(l[..a]) && RedirToks(l[..k]) && NotRedir(l[a..]) && NotRedir(l[k..])
    ensures a == k
    decreases |l|
  {
    if a > 0 && k > 0 {
      assert l[2..][..a - 2] == l[..a][2..] && l[2..][..k - 2] == l[..k][2..];
      assert l[2..][a - 2..] == l[a..] && l[2..][k - 2..] == l[k..];
      RedirsEnd(l[2..], a - 2, k - 2);
    } else {
      FirstRedir(l, a);
      FirstRedir(l, k);
      assert l[0..] == l;
    }
  }

  lemma FirstRedir(l: seq<Tok>, k: nat)
    requires k <= |l|
    ensures k > 0 && RedirToks(l[..k]) ==> RedirSym(l[0])
  {
  }

  lemma {:induction false} RedirsBad(l: seq<Tok>, a: nat, k: nat)
    requires a <= |l| && k <= |l| && RedirToks(l[..a]) && BadRedir(l[a..])
    ensures !(RedirToks(l[..k]) && NotRedir(l[k..]))
    decreases |l|
  {
    if a > 0 && k > 1 {
      assert l[2..][..a - 2] == l[..a][2..] && l[2..][..k - 2] == l[..k][2..];
      assert l[2..][a - 2..] == l[a..] && l[2..][k - 2..] == l[k..];
      RedirsBad(l[2..], a - 2, k - 2);
    } else if a > 0 {
      assert k == 0 ==> l[k..][0] == l[..a][0];
    } else {
      assert k == 0 ==> l[k..] == l[a..];
      assert k > 0 ==> l[..k][0] == l[a..][0] && (k > 1 ==> l[..k][1] == l[a..][1]);
    }
  }

  /** A block's inner line, and what follows the parenthesis. */
  lemma BlockSplit(l: seq<Tok>, c: Cmd, k: nat) returns (d: Cmd, j: nat)
    requires BlockUpTo(l, c, k)
    ensures 0 < j < k <= |l| && l[0] == Sym('(') && l[j] == Sym(')') && LineUpTo(l[1..], d, j - 1)
    ensures var m := l[j + 1..];
      RedirToks(m[..k - j - 1]) && c == Wrapped(d, m[..k - j - 1]) && NotRedir(m[k - j - 1..])
  {
    d, j :| Closes(c, d, l[..k], j) && IsLine(d, l[..k][1..j]);
    assert l[..k][1..j] == l[1..][..j - 1];
    assert l[..k][j + 1..] == l[j + 1..][..k - j - 1];
    assert l[1..][j - 1..] == l[j..] && l[j + 1..][k - j - 1..] == l[k..];
  }

  /** The line inside fails, or no parenthesis closes it. */
  lemma BlockFails(l: seq<Tok>, inner: Option<Cmd>, n: nat, m: nat)
    requires l != [] && OnlyLine(l[1..], inner, n)
    requires inner.Some? && n + 1 < |l| ==> l[n + 1] != Sym(')')
    ensures OnlyBlock(l, None, m)
  {
    hide LineUpTo, RedirToks;
    forall c: Cmd, k: nat
      ensures !BlockUpTo(l, c, k)
    {
      if BlockUpTo(l, c, k) {
        var d, j := BlockSplit(l, c, k);
        assert false;
      }
    }
  }

  /** A redirection after the block has no file. */
  lemma BlockUnfinished(l: seq<Tok>, d: Cmd, n: nat, rest: seq<Tok>, b: seq<Tok>, m: nat)
    requires n + 2 <= |l| && OnlyLine(l[1..], Some(d), n) && l[n + 2..] == rest
    requires b <= rest && RedirToks(b) && BadRedir(rest[|b|..])
    ensures OnlyBlock(l, None, m)
  {
    hide LineUpTo, RedirToks;
    assert rest[..|b|] == b;
    forall c: Cmd, k: nat
      ensures !BlockUpTo(l, c, k)
    {
      if BlockUpTo(l, c, k) {
        var e, j := BlockSplit(l, c, k);
        RedirsBad(rest, |b|, k - j - 1);
        assert false;
      }
    }
  }

  lemma BlockDone(l: seq<Tok>, d: Cmd, n: nat, rest: seq<Tok>, b: seq<Tok>)
    requires n + 2 <= |l| && OnlyLine(l[1..], Some(d), n) && l[n + 2..] == rest
    requires b <= rest && RedirToks(b) && NotRedir(rest[|b|..])
    ensures OnlyBlock(l, Some(Wrapped(d, b)), n + 2 + |b|)
  {
    hide LineUpTo, BlockUpTo, Wrapped, RedirToks;
    assert rest[..|b|] == b;
    forall c: Cmd, k: nat | BlockUpTo(l, c, k)
      ensures c == Wrapped(d, b) && k == n + 2 + |b|
    {
      var e, j := BlockSplit(l, c, k);
      RedirsEnd(rest, |b|, k - j - 1);
    }
  }

  // ---- Pipelines and lines --------------------------------------------------------------------

  lemma ExecOfSimple(l: seq<Tok>, r: Option<Cmd>, n: nat)
    requires !Head(l, '(') && OnlySimple(l, r, n)
    ensures OnlyExec(l, r, n)
  {
    hide IsSimple, IsBlock;
    forall c: Cmd, k: nat | ExecUpTo(l, c, k)
      ensures SimpleUpTo(l, c, k)
    {
      if BlockUpTo(l, c, k) {
        var d, j := BlockSplit(l, c, k);
      }
    }
  }

  lemma ExecOfBlock(l: seq<Tok>, r: Option<Cmd>, n: nat)
    requires Head(l, '(') && OnlyBlock(l, r, n)
    ensures OnlyExec(l, r, n)
  {
    forall c: Cmd, k: nat | ExecUpTo(l, c, k)
      ensures BlockUpTo(l, c, k)
    {
      NotSimple(l, c, k);
    }
  }

  lemma NotSimple(l: seq<Tok>, c: Cmd, k: nat)
    requires Head(l, '(')
    ensures !SimpleUpTo(l, c, k)
  {
    assert l[0..] == l;
  }

  /** Where a pipeline's first command ends. */
  lemma PipeSplit(l: seq<Tok>, c: Cmd, k: nat) returns (j: nat)
    requires PipeUpTo(l, c, k) && !IsExec(c, l[..k])
    ensures j < k <= |l| && c.Pipe? && l[j] == Sym('|') && ExecUpTo(l, c.left, j) &&
      PipeUpTo(l[j + 1..], c.right, k - j - 1)
  {
    j :| j < |l[..k]| && l[..k][j] == Sym('|') && IsExec(c.left, l[..k][..j]) && IsPipe(c.right, l[..k][j + 1..]);
    assert l[..k][..j] == l[..j] && l[..k][j + 1..] == l[j + 1..][..k - j - 1];
    assert l[j + 1..][k - j - 1..] == l[k..] && l[j..][0] == l[j];
  }

  lemma PipeEnds(l: seq<Tok>, r: Option<Cmd>, n: nat)
    requires OnlyExec(l, r, n) && (r.Some? && n < |l| ==> l[n] != Sym('|'))
    ensures OnlyPipe(l, r, n)
  {
    hide IsExec, IsPipe;
    forall c: Cmd, k: nat | PipeUpTo(l, c, k)
      ensures ExecUpTo(l, c, k)
    {
      if !IsExec(c, l[..k]) {
        var j := PipeSplit(l, c, k);
        assert false;
      }
    }
  }

  lemma PipeGoesOn(l: seq<Tok>, e: Cmd, n: nat, rest: Option<Cmd>, m: nat)
    requires OnlyExec(l, Some(e), n) && n < |l| && l[n] == Sym('|') && OnlyPipe(l[n + 1..], rest, m)
    ensures OnlyPipe(l, if rest.Some? then Some(Pipe(e, rest.value)) else None, n + 1 + m)
  {
    hide IsExec, IsPipe;
    assert l[n..][0] == l[n];
    forall c: Cmd, k: nat | PipeUpTo(l, c, k)
      ensures rest.Some? && c == Pipe(e, rest.value) && k == n + 1 + m
    {
      assert IsExec(c, l[..k]) ==> ExecUpTo(l, c, k);
      if !IsExec(c, l[..k]) {
        var j := PipeSplit(l, c, k);
      }
    }
  }

  /** A command with so many & after it. */
  function Backs(c: Cmd, p: nat): Cmd {
    if p == 0 then c else Back(Backs(c, p - 1))
  }

  lemma {:induction false} AmpSplit(c: Cmd, ts: seq<Tok>) returns (d: Cmd, j: nat)
    requires IsAmp(c, ts)
    ensures j <= |ts| && IsPipe(d, ts[..j]) && c == Backs(d, |ts| - j)
    ensures forall i :: j <= i < |ts| ==> ts[i] == Sym('&')
    decreases |ts|
  {
    if IsPipe(c, ts) {
      d, j := c, |ts|;
      assert ts[..j] == ts;
    } else {
      d, j := AmpSplit(c.cmd, ts[..|ts| - 1]);
      assert ts[..|ts| - 1][..j] == ts[..j];
      forall i | j <= i < |ts|
        ensures ts[i] == Sym('&')
      {
        assert i < |ts| - 1 ==> ts[..|ts| - 1][i] == ts[i];
      }
    }
  }

  /** The pipeline before the &s. */
  lemma AmpFrom(l: seq<Tok>, c: Cmd, k: nat) returns (d: Cmd, j: nat)
    requires AmpUpTo(l, c, k)
    ensures j <= k <= |l| && PipeUpTo(l, d, j) && c == Backs(d, k - j) && forall i :: j <= i < k ==> l[i] == Sym('&')
  {
    d, j := AmpSplit(c, l[..k]);
    assert l[..k][..j] == l[..j];
    forall i | j <= i < k
      ensures l[i] == Sym('&')
    {
      assert l[..k][i] == l[i];
    }
    assert j < k ==> l[j..][0] == l[j];
  }

  lemma AmpFails(l: seq<Tok>, n: nat, m: nat)
    requires OnlyPipe(l, None, n)
    ensures OnlyAmp(l, None, m)
  {
    hide PipeUpTo, AmpUpTo;
    forall c: Cmd, k: nat
      ensures !AmpUpTo(l, c, k)
    {
      if AmpUpTo(l, c, k) {
        var d, j := AmpFrom(l, c, k);
        assert false;
      }
    }
  }

  lemma AmpDone(l: seq<Tok>, e: Cmd, n: nat, p: nat)
    requires OnlyPipe(l, Some(e), n) && n + p <= |l|
    requires (forall i :: n <= i < n + p ==> l[i] == Sym('&')) && (n + p < |l| ==> l[n + p] != Sym('&'))
    ensures OnlyAmp(l, Some(Backs(e, p)), n + p)
  {
    hide IsPipe, IsAmp;
    forall c: Cmd, k: nat | AmpUpTo(l, c, k)
      ensures c == Backs(e, p) && k == n + p
    {
      var d, j := AmpFrom(l, c, k);
      assert j == n && d == e;
      assert k < |l| ==> l[k..][0] == l[k];
    }
  }

  lemma LineSplit(l: seq<Tok>, c: Cmd, k: nat) returns (j: nat)
    requires LineUpTo(l, c, k) && !IsAmp(c, l[..k])
    ensures j < k <= |l| && c.List? && l[j] == Sym(';') && AmpUpTo(l, c.left, j) &&
      LineUpTo(l[j + 1..], c.right, k - j - 1)
  {
    j :| j < |l[..k]| && l[..k][j] == Sym(';') && IsAmp(c.left, l[..k][..j]) && IsLine(c.right, l[..k][j + 1..]);
    assert l[..k][..j] == l[..j] && l[..k][j + 1..] == l[j + 1..][..k - j - 1];
    assert l[j + 1..][k - j - 1..] == l[k..] && l[j..][0] == l[j];
  }

  lemma LineEnds(l: seq<Tok>, r: Option<Cmd>, n: nat)
    requires OnlyAmp(l, r, n) && (r.Some? && n < |l| ==> l[n] != Sym(';'))
    ensures OnlyLine(l, r, n)
  {
    hide IsAmp, IsLine;
    forall c: Cmd, k: nat | LineUpTo(l, c, k)
      ensures AmpUpTo(l, c, k)
    {
      if !IsAmp(c, l[..k]) {
        var j := LineSplit(l, c, k);
        assert false;
      }
    }
  }

  lemma LineGoesOn(l: seq<Tok>, e: Cmd, n: nat, rest: Option<Cmd>, m: nat)
    requires OnlyAmp(l, Some(e), n) && n < |l| && l[n] == Sym(';') && OnlyLine(l[n + 1..], rest, m)
    ensures OnlyLine(l, if rest.Some? then Some(List(e, rest.value)) else None, n + 1 + m)
  {
    hide IsAmp, IsLine;
    assert l[n..][0] == l[n];
    forall c: Cmd, k: nat | LineUpTo(l, c, k)
      ensures rest.Some? && c == List(e, rest.value) && k == n + 1 + m
    {
      assert IsAmp(c, l[..k]) ==> AmpUpTo(l, c, k);
      if !IsAmp(c, l[..k]) {
        var j := LineSplit(l, c, k);
      }
    }
  }

  /** Read to its end a line gives the one command it derives, and otherwise it derives none. */
  lemma WholeLine(l: seq<Tok>, r: Option<Cmd>, n: nat, c: Cmd)
    requires OnlyLine(l, r, n) && IsLine(c, l)
    ensures r == Some(c) && n == |l|
  {
    assert l[..|l|] == l;
    assert LineUpTo(l, c, |l|);
  }
}
