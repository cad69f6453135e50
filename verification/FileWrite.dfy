/** filewrite: a write through an open file, cut into transactions that fit the log. And runs of
    reads, writes and truncations against files as plain byte strings. */
module FileWrite {
  import opened Blocks
  import opened Inodes
  import opened Params
  import opened Wrappers
  import opened FileSystem

  const LARGEST: nat := MAXFILE * BSIZE
  /** ((MAXOPBLOCKS-1-1-2) / 2) * 512 */
  const CHUNK: nat := ((MAXOPBLOCKS - 1 - 1 - 2) / 2) * 512

  class OpenFile {
    const inum: nat
    var off: nat

    constructor (i: nat, o: nat)
      ensures inum == i && off == o
    {
      inum, off := i, o;
    }
  }

  /** How many bytes get written: all of them if they fit below the largest file, otherwise the
      whole chunks that do; none if the offset lies past the end of the file. */
  function Written(size: nat, off: nat, n: nat): (w: nat)
    requires size <= LARGEST
    ensures w <= n && (w > 0 ==> off <= size && off + w <= LARGEST)
  {
    if off > size || n == 0 then 0
    else if off + n <= LARGEST then n
    else (LARGEST - off) / CHUNK * CHUNK
  }

  /** What that comes to: all or nothing when the offset or the end decides it, and otherwise as many transactions
      of 1536 bytes as still fit. */
  lemma WrittenMeans(size: nat, off: nat, n: nat)
    requires size <= LARGEST
    ensures var w := Written(size, off, n);
      && (off > size ==> w == 0) && (off <= size && off + n <= 71680 ==> w == n)
      && (off <= size && off + n > 71680 ==> w % 1536 == 0 && off + w <= 71680 < off + w + 1536)
  {
    assert LARGEST == 71680 && CHUNK == 1536;
    var m := LARGEST - off;
    if off <= size {
      assert m / 1536 * 1536 <= m < m / 1536 * 1536 + 1536;
    }
  }

  /** What reads where after a write. */
  lemma SpliceReads(c: seq<byte>, off: nat, src: seq<byte>, p: nat)
    requires off <= |c|
    ensures var r := Splice(c, off, src);
      && |r| == (if off + |src| > |c| then off + |src| else |c|)
      && (p < |r| ==> r[p] == if off <= p < off + |src| then src[p - off] else c[p])
  {
  }

  lemma SpliceTwice(c: seq<byte>, off: nat, a: seq<byte>, b: seq<byte>)
    requires off <= |c|
    ensures Splice(Splice(c, off, a), off + |a|, b) == Splice(c, off, a + b)
  {
    var x, y := Splice(Splice(c, off, a), off + |a|, b), Splice(c, off, a + b);
    forall k | 0 <= k < |x|
      ensures x[k] == y[k]
    {
    }
  }

  /** A transaction on a file without holes fits the log; on any file it does if the free map is one
      block, as in the image that mkfs builds. */
  predicate Fits(g: Geometry, whole: bool, log: set<nat>) {
    (whole ==> |log| <= MAXOPBLOCKS) && (g.nbitmap == 1 ==> |log| <= 7)
  }

  /** One turn of filewrite's loop, from begin_op to end_op; `log` is what it logs, and that covers whatever it
      changes. */
  method WriteTransaction(fs: Fs, f: OpenFile, piece: seq<byte>) returns (r: Outcome, ghost log: set<nat>)
    requires fs.Valid() && f.inum < |fs.icache| && f.off < WORD && 0 < |piece| <= CHUNK
    modifies fs, f
    ensures if r.OutOfBlocks? then fs.Exhausted() else fs.Valid() && |fs.icache| == |old(fs.icache)|
    ensures r.Refused? <==> old(f.off) > |old(fs.Files())[f.inum]| || old(f.off) + |piece| > LARGEST
    ensures r.Refused? ==> fs.Files() == old(fs.Files()) && f.off == old(f.off)
    ensures r.Refused? ==> fs.Now() == old(fs.Now()).(logged := {})
    ensures r.Wrote? ==> f.off == old(f.off) + |piece| && Fits(fs.g, old(NoHoles(fs.blocks, fs.icache[f.inum])), log)
    ensures !r.OutOfBlocks? ==> WholeKept(old(fs.blocks), old(fs.icache), fs.blocks, fs.icache)
    ensures r.Wrote? ==> fs.Files() == old(fs.Files())[f.inum := Splice(old(fs.Files())[f.inum], old(f.off), piece)]
    ensures log == fs.logged && LogCovers(fs.g, old(fs.Now()).(logged := {}), fs.Now())
  {
    hide Splice, FilesOf, Owned, NoHoles, Span, New, Sized, Shadow, LogCovers;
    ghost var whole := NoHoles(fs.blocks, fs.icache[f.inum]);
    FileLength(fs.blocks, fs.icache, f.inum);
    fs.logged := {};
    ghost var data, bits;
    r, data, bits := fs.Writei(f.inum, piece, f.off);
    log := fs.logged;
    if r.Wrote? {
      AddrHeld(fs.g, fs.bm, fs.blocks, fs.icache, fs.owner, f.inum, 0);
      ChunkFitsTransaction(fs.g, whole, f.off, |piece|, log, data, bits, Indirect(fs.icache[f.inum]),
        fs.g.inodestart + f.inum / IPB);
      f.off := f.off + r.count;
    }
  }

  /** The blocks that some transaction logged. */
  function AllLogged(logs: seq<set<nat>>): (all: set<nat>)
    ensures forall x :: x in all <==> exists k :: 0 <= k < |logs| && x in logs[k]
  {
    set k, x | 0 <= k < |logs| && x in logs[k] :: x
  }

  lemma OneMoreLogged(logs: seq<set<nat>>, log: set<nat>)
    ensures AllLogged(logs + [log]) == AllLogged(logs) + log
  {
    var all := AllLogged(logs + [log]);
    forall x | x in AllLogged(logs) + log
      ensures x in all
    {
      if x in log {
        assert (logs + [log])[|logs|] == log;
      } else {
        var k :| 0 <= k < |logs| && x in logs[k];
        assert (logs + [log])[k] == logs[k];
      }
    }
  }

  /** The first i bytes have been written: `logs` holds what each transaction logged. */
  ghost predicate Recorded(g: Geometry, whole: bool, before: Stored, now: Stored, i: nat, logs: seq<set<nat>>) {
    && LogCovers(g, before, now.(logged := AllLogged(logs)))
    && (forall k :: 0 <= k < |logs| ==> Fits(g, whole, logs[k]))
    && |logs| == (i + 1535) / 1536
  }

  lemma RecordedStart(g: Geometry, whole: bool, now: Stored)
    requires now.logged == {}
    ensures Recorded(g, whole, now, now, 0, [])
  {
  }

  lemma RecordedNext(g: Geometry, whole: bool, still: bool, before: Stored, now: Stored, next: Stored, i: nat, n1: nat,
      n: nat, logs: seq<set<nat>>)
    requires Recorded(g, whole, before, now, i, logs) && now.logged == {} && LogCovers(g, now, next)
    requires (whole ==> still) && Fits(g, still, next.logged)
    requires i < n && i % CHUNK == 0 && n1 == if n - i > CHUNK then CHUNK else n - i
    ensures Recorded(g, whole, before, next.(logged := {}), i + n1, logs + [next.logged])
  {
    hide LogCovers, AllLogged;
    LogCoversBoth(g, before, now.(logged := AllLogged(logs)), next);
    OneMoreLogged(logs, next.logged);
  }

  /** filewrite on an inode. `logs` holds the set of blocks each of its transactions logs: never
      more than MAXOPBLOCKS if the file has no holes, and at most seven when the free map is a single
      block; together they cover whatever the call changes on the disk. A transaction takes 1536 bytes. The file
      ends up as if the bytes had been written in one piece. `result` is -1 where not all
      of them were written; None stands for the panic for want of blocks. */
  method Filewrite(fs: Fs, f: OpenFile, src: seq<byte>) returns (result: Option<int>, ghost logs: seq<set<nat>>)
    requires fs.Valid() && f.inum < |fs.icache| && f.off < 0x8000_0000 && |src| < 0x8000_0000
    modifies fs, f
    ensures forall k :: 0 <= k < |logs| ==> Fits(fs.g, old(NoHoles(fs.blocks, fs.icache[f.inum])), logs[k])
    ensures if result.None? then fs.Exhausted() else fs.Valid() && |fs.icache| == |old(fs.icache)|
    ensures result.Some? ==>
      LogCovers(fs.g, old(fs.Now()).(logged := {}), fs.Now().(logged := AllLogged(logs)))
    ensures result.Some? ==> |logs| == (f.off - old(f.off) + 1535) / 1536
    ensures result.Some? ==> WholeKept(old(fs.blocks), old(fs.icache), fs.blocks, fs.icache)
    ensures result.Some? ==>
      var c := old(fs.Files())[f.inum];
      && |c| <= LARGEST
      && var w := Written(|c|, old(f.off), |src|);
         && result.value == (if w == |src| then |src| else -1)
         && f.off == old(f.off) + w
         && fs.Files() == if w == 0 then old(fs.Files()) else old(fs.Files())[f.inum := Splice(c, old(f.off), src[..w])]
  {
    ghost var c := Call(fs.Now().(logged := {}), fs.icache, fs.Files(), f.inum, f.off, src);
    StartsOut(fs, f, c);
    hide Underway, Written, NoHoles, Splice, FilesOf, Fits, LogCovers, WholeKept, AllLogged, Owned, Sized, Shadow;
    var i;
    i, logs := SendAll(fs, f, src, c);
    if i.None? {
      return None, logs;
    }
    UnderwayMeans(fs, f, c, i.value, logs);
    result := Some(if i.value == |src| then |src| else -1);
  }

  /** filewrite's loop: how many bytes it writes. */
  method SendAll(fs: Fs, f: OpenFile, src: seq<byte>, ghost c: Call)
      returns (r: Option<nat>, ghost logs: seq<set<nat>>)
    requires Underway(fs, f, c, 0, []) && src == c.src
    modifies fs, f
    ensures r.None? ==> fs.Exhausted()
    ensures ValidCall(c)
    ensures forall k :: 0 <= k < |logs| ==> Fits(fs.g, NoHoles(c.before.blocks, c.inodes[c.inum]), logs[k])
    ensures r.Some? ==> Underway(fs, f, c, r.value, logs) && Written(|c.files[c.inum]|, c.off, |src|) == r.value
  {
    hide Underway, Written, NoHoles, Fits, Splice, WholeKept, LogCovers, AllLogged;
    var n, i := |src|, 0;
    logs := [];
    UnderwayMeans(fs, f, c, i, logs);
    while i < n
      invariant 0 <= i <= n && (i == n || i % CHUNK == 0) && Underway(fs, f, c, i, logs)
    {
      UnderwayMeans(fs, f, c, i, logs);
      var out, n1, more := SendNext(fs, f, src, i, c, logs);
      if out.OutOfBlocks? {
        return None, logs;
      }
      if out.Refused? {
        return Some(i), logs;
      }
      logs := more;
      i := i + n1;
    }
    UnderwayMeans(fs, f, c, i, logs);
    r := Some(i);
  }

  /** A call of filewrite: what it found, and what it was asked for. */
  datatype Call = Call(before: Stored, inodes: seq<Inode>, files: seq<seq<byte>>, inum: nat, off: nat, src: seq<byte>)

  predicate ValidCall(c: Call) {
    && c.inum < |c.inodes| == |c.files| && |c.files[c.inum]| <= LARGEST
    && c.off < 0x8000_0000 && |c.src| < 0x8000_0000
  }

  /** The first i bytes are written. */
  ghost predicate Underway(fs: Fs, f: OpenFile, c: Call, i: nat, logs: seq<set<nat>>)
    reads fs, f
  {
    && fs.Valid() && ValidCall(c) && |fs.icache| == |c.inodes| && f.inum == c.inum && i <= |c.src| && f.off == c.off + i
    && (i > 0 ==> c.off <= |c.files[c.inum]| && c.off + i <= LARGEST)
    && fs.Files() == (if i == 0 then c.files else c.files[c.inum := Splice(c.files[c.inum], c.off, c.src[..i])])
    && WholeKept(c.before.blocks, c.inodes, fs.blocks, fs.icache)
    && Recorded(fs.g, NoHoles(c.before.blocks, c.inodes[c.inum]), c.before, fs.Now().(logged := {}), i, logs)
  }

  lemma StartsOut(fs: Fs, f: OpenFile, c: Call)
    requires fs.Valid() && f.inum < |fs.icache| && f.off < 0x8000_0000 && |c.src| < 0x8000_0000
    requires c == Call(fs.Now().(logged := {}), fs.icache, fs.Files(), f.inum, f.off, c.src)
    ensures Underway(fs, f, c, 0, [])
  {
    hide NoHoles, FilesOf, Recorded, Owned, Sized, Shadow;
    FileLength(fs.blocks, fs.icache, f.inum);
    RecordedStart(fs.g, NoHoles(fs.blocks, fs.icache[f.inum]), c.before);
    NothingOpens(fs.blocks, fs.icache);
  }

  lemma UnderwayMeans(fs: Fs, f: OpenFile, c: Call, i: nat, logs: seq<set<nat>>)
    requires Underway(fs, f, c, i, logs)
    ensures fs.Valid() && ValidCall(c) && |fs.icache| == |c.inodes| && f.off == c.off + i
    ensures fs.Files() == if i == 0 then c.files else
      assert c.off <= |c.files[c.inum]|;
      c.files[c.inum := Splice(c.files[c.inum], c.off, c.src[..i])]
    ensures WholeKept(c.before.blocks, c.inodes, fs.blocks, fs.icache)
    ensures LogCovers(fs.g, c.before, fs.Now().(logged := AllLogged(logs)))
    ensures forall k :: 0 <= k < |logs| ==> Fits(fs.g, NoHoles(c.before.blocks, c.inodes[c.inum]), logs[k])
    ensures |logs| == (i + 1535) / 1536
    ensures i == |c.src| ==> Written(|c.files[c.inum]|, c.off, |c.src|) == i
  {
    hide Splice, FilesOf, NoHoles, WholeKept, LogCovers, AllLogged, Fits, Written, Owned, Sized, Shadow;
    AllWritten(|c.files[c.inum]|, c.off, |c.src|, i);
  }

  /** One turn of filewrite's loop, and where it leaves the call. */
  method SendNext(fs: Fs, f: OpenFile, src: seq<byte>, i: nat, ghost c: Call, ghost logs: seq<set<nat>>)
      returns (r: Outcome, n1: nat, ghost more: seq<set<nat>>)
    requires Underway(fs, f, c, i, logs) && src == c.src && i < |src| && i % CHUNK == 0
    modifies fs, f
    ensures n1 == if |src| - i > CHUNK then CHUNK else |src| - i
    ensures r.OutOfBlocks? ==> fs.Exhausted()
    ensures r.Refused? ==> Underway(fs, f, c, i, logs)
    ensures r.Refused? ==> ValidCall(c) && Written(|c.files[c.inum]|, c.off, |src|) == i
    ensures r.Wrote? ==> Underway(fs, f, c, i + n1, more)
  {
    hide Splice, FilesOf, Owned, NoHoles, Written, Sized, Shadow, LogCovers, AllLogged, Fits, WholeKept, Recorded;
    ghost var file := c.files[c.inum];
    n1 := if |src| - i > CHUNK then CHUNK else |src| - i;
    more := logs;
    ghost var files, now, b1, i1 := fs.Files(), fs.Now().(logged := {}), fs.blocks, fs.icache;
    ghost var log;
    r, log := WriteTransaction(fs, f, src[i..i + n1]);
    if r.OutOfBlocks? {
      return;
    }
    WholeTwice(c.before.blocks, c.inodes, b1, i1, fs.blocks, fs.icache);
    StillWhole(c.before.blocks, c.inodes, b1, i1, f.inum);
    if i > 0 {
      SpliceLength(file, c.off, src, i);
    }
    if r.Refused? {
      ChunkRefused(|file|, c.off, i, |src|, n1, |files[f.inum]|);
    } else {
      RecordedNext(fs.g, NoHoles(c.before.blocks, c.inodes[c.inum]), NoHoles(b1, i1[f.inum]), c.before, now, fs.Now(),
        i, n1, |src|, logs);
      more := logs + [log];
      NextSplice(c.files, files, fs.Files(), f.inum, c.off, src, i, n1);
    }
  }

  lemma StillWhole(b0: seq<Block>, i0: seq<Inode>, b1: seq<Block>, i1: seq<Inode>, i: nat)
    requires WholeKept(b0, i0, b1, i1) && i < |i0|
    ensures NoHoles(b0, i0[i]) ==> NoHoles(b1, i1[i])
  {
  }

  lemma AllWritten(size: nat, off: nat, n: nat, i: nat)
    requires size <= LARGEST && i <= n && (i > 0 ==> off <= size && off + i <= LARGEST)
    ensures i == n ==> Written(size, off, n) == n
  {
  }

  /** The files after one more chunk, relative to those before the first. */
  lemma NextSplice(f0: seq<seq<byte>>, f1: seq<seq<byte>>, f2: seq<seq<byte>>, inum: nat, off: nat, src: seq<byte>,
      i: nat, n1: nat)
    requires inum < |f0| && i + n1 <= |src| && off <= |f0[inum]| && |f1| == |f0|
    requires f1 == if i == 0 then f0 else f0[inum := Splice(f0[inum], off, src[..i])]
    requires off + i <= |f1[inum]| && f2 == f1[inum := Splice(f1[inum], off + i, src[i..i + n1])]
    ensures f2 == f0[inum := Splice(f0[inum], off, src[..i + n1])]
  {
    assert src[..i] + src[i..i + n1] == src[..i + n1];
    SpliceTwice(f0[inum], off, src[..i], src[i..i + n1]);
  }

  /** The chunk at i is the first that does not fit. */
  lemma ChunkRefused(size: nat, off: nat, i: nat, n: nat, n1: nat, now: nat)
    requires size <= LARGEST && i < n && i % CHUNK == 0 && n1 == if n - i > CHUNK then CHUNK else n - i
    requires i > 0 ==> off <= size && off + i <= LARGEST
    requires now == if i == 0 || off + i <= size then size else off + i
    requires off + i > now || off + i + n1 > LARGEST
    ensures Written(size, off, n) == i
  {
    if off <= size {
      assert off + n > LARGEST;
      var q := i / CHUNK;
      assert i == q * CHUNK && off + i <= LARGEST < off + i + CHUNK;
      assert (LARGEST - off) / CHUNK == q;
    }
  }

  lemma SpliceLength(c: seq<byte>, off: nat, src: seq<byte>, i: nat)
    requires i <= |src| && off <= |c|
    ensures |Splice(c, off, src[..i])| == if off + i <= |c| then |c| else off + i
  {
  }

  // ---- Runs ------------------------------------------------------------------------------

  /** Calls of writei, readi and itrunc, and of filewrite through a file that is open at an offset. */
  datatype Op =
    | Write(inum: nat, off: nat, src: seq<byte>)
    | Read(inum: nat, off: nat, n: nat)
    | Truncate(inum: nat)
    | Send(inum: nat, off: nat, src: seq<byte>)

  /** What an operation returns: nothing for a refusal, else the bytes read or [] . */
  type Reply = Option<seq<byte>>

  predicate ValidOp(op: Op, files: nat) {
    && op.inum < files
    && (op.Write? ==> op.off < WORD && |op.src| < WORD)
    && (op.Read? ==> op.off < WORD && op.n < WORD)
    && (op.Send? ==> op.off < 0x8000_0000 && |op.src| < 0x8000_0000)
  }

  /** The reference: files are byte strings, changed by splicing. */
  function After(files: seq<seq<byte>>, op: Op): (r: seq<seq<byte>>)
    requires op.inum < |files|
    ensures |r| == |files|
  {
    match op
    case Write(i, off, src) =>
      if off > |files[i]| || off + |src| > LARGEST then files else files[i := Splice(files[i], off, src)]
    case Read(_, _, _) => files
    case Truncate(i) => files[i := []]
    case Send(i, off, src) =>
      var w := Sent(files[i], op);
      if w == 0 then files else files[i := Splice(files[i], off, src[..w])]
  }

  /** How much of it filewrite writes. */
  function Sent(file: seq<byte>, op: Op): (w: nat)
    requires op.Send?
    ensures w <= |op.src| && (w > 0 ==> op.off <= |file|)
  {
    if |file| > LARGEST then 0 else Written(|file|, op.off, |op.src|)
  }

  function Answer(files: seq<seq<byte>>, op: Op): Reply
    requires op.inum < |files|
  {
    match op
    case Write(i, off, src) => if off > |files[i]| || off + |src| > LARGEST then None else Some([])
    case Read(i, off, n) =>
      if off > |files[i]| || off + n >= WORD then None
      else Some(files[i][off..if off + n <= |files[i]| then off + n else |files[i]|])
    case Truncate(_) => Some([])
    case Send(i, _, src) => if Sent(files[i], op) == |src| then Some([]) else None
  }

  function AfterAll(files: seq<seq<byte>>, ops: seq<Op>): (r: seq<seq<byte>>)
    requires forall k :: 0 <= k < |ops| ==> ValidOp(ops[k], |files|)
    ensures |r| == |files|
  {
    if ops == [] then files
    else
      var op := ops[|ops| - 1];
      assert ValidOp(op, |files|);
      After(AfterAll(files, ops[..|ops| - 1]), op)
  }

  function Answers(files: seq<seq<byte>>, ops: seq<Op>): (r: seq<Reply>)
    requires forall k :: 0 <= k < |ops| ==> ValidOp(ops[k], |files|)
    ensures |r| == |ops|
  {
    if ops == [] then []
    else
      var pre, op := ops[..|ops| - 1], ops[|ops| - 1];
      assert ValidOp(op, |files|);
      Answers(files, pre) + [Answer(AfterAll(files, pre), op)]
  }

  /** What one transaction of a filewrite on inode `inum` logged. */
  datatype Logged = Logged(inum: nat, blocks: set<nat>)

  function BlocksOf(logs: seq<Logged>): seq<set<nat>> {
    seq(|logs|, k requires 0 <= k < |logs| => logs[k].blocks)
  }

  /** How many transactions an operation makes on a file: filewrite one for every 1536 bytes it writes. */
  function Transactions(file: seq<byte>, op: Op): nat {
    if op.Send? then (Sent(file, op) + 1535) / 1536 else 0
  }

  function AllTransactions(files: seq<seq<byte>>, ops: seq<Op>): nat
    requires forall k :: 0 <= k < |ops| ==> ValidOp(ops[k], |files|)
  {
    if ops == [] then 0
    else
      var pre, op := ops[..|ops| - 1], ops[|ops| - 1];
      assert ValidOp(op, |files|);
      AllTransactions(files, pre) + Transactions(AfterAll(files, pre)[op.inum], op)
  }

  /** Every transaction on a file that was without holes fits the log, and every transaction does if the
      free map is one block. */
  ghost predicate AllFit(g: Geometry, blocks: seq<Block>, inodes: seq<Inode>, logs: seq<Logged>) {
    forall k :: 0 <= k < |logs| ==>
      logs[k].inum < |inodes| && Fits(g, NoHoles(blocks, inodes[logs[k].inum]), logs[k].blocks)
  }

  /** One operation on the file system does what it does on the byte strings, and leaves no file without
      holes with one; None stands for the panic for want of blocks. */
  method Perform(fs: Fs, op: Op) returns (reply: Option<Reply>, ghost logs: seq<Logged>)
    requires fs.Valid() && ValidOp(op, |fs.icache|)
    modifies fs
    ensures reply.None? ==> !op.Truncate? && fs.Exhausted()
    ensures reply.Some? ==> fs.Valid() && |fs.icache| == |old(fs.icache)|
    ensures reply.Some? ==> WholeKept(old(fs.blocks), old(fs.icache), fs.blocks, fs.icache)
    ensures reply.Some? ==> reply.value == Answer(old(fs.Files()), op)
    ensures reply.Some? ==> fs.Files() == After(old(fs.Files()), op)
    ensures AllFit(fs.g, old(fs.blocks), old(fs.icache), logs)
    ensures forall k :: 0 <= k < |logs| ==> logs[k].inum == op.inum
    ensures reply.Some? ==> |logs| == Transactions(old(fs.Files())[op.inum], op)
    ensures reply.Some? && op.Send? ==>
      LogCovers(fs.g, old(fs.Now()).(logged := {}), fs.Now().(logged := AllLogged(BlocksOf(logs))))
  {
    hide Splice, FilesOf, Owned, NoHoles, Sized, Shadow, MeetsHole, AddrsPresent, Written, LogCovers, AllLogged;
    FileLength(fs.blocks, fs.icache, op.inum);
    logs := [];
    match op {
      case Write(i, off, src) =>
        var out, _, _ := fs.Writei(i, src, off);
        NothingOpens(old(fs.blocks), old(fs.icache));
        reply := match out case Wrote(_) => Some(Some([])) case Refused => Some(None) case OutOfBlocks => None;
      case Read(i, off, n) =>
        var r := fs.Readi(i, off, n);
        NothingOpens(old(fs.blocks), old(fs.icache));
        reply := match r case Bytes(data) => Some(Some(data)) case BadRange => Some(None) case NoBlock => None;
      case Truncate(i) =>
        var _ := fs.Itrunc(i);
        FileLength(fs.blocks, fs.icache, i);
        TruncateOpens(fs.blocks, old(fs.icache), fs.icache, i);
        reply := Some(Some([]));
      case Send(i, off, src) =>
        var f := new OpenFile(i, off);
        ghost var sets: seq<set<nat>>;
        var result;
        result, sets := Filewrite(fs, f, src);
        logs := seq(|sets|, k requires 0 <= k < |sets| => Logged(i, sets[k]));
        assert BlocksOf(logs) == sets;
        reply := match result case Some(n) => Some(if n >= 0 then Some([]) else None) case None => None;
    }
  }

  lemma NothingOpens(blocks: seq<Block>, inodes: seq<Inode>)
    ensures WholeKept(blocks, inodes, blocks, inodes)
  {
  }

  lemma TruncateOpens(blocks: seq<Block>, i0: seq<Inode>, i1: seq<Inode>, i: nat)
    requires |i0| == |i1| && i < |i0| && AllSized(blocks, i1) && i1[i].size == 0
    requires forall j :: 0 <= j < |i0| && j != i ==> i1[j] == i0[j]
    ensures WholeKept(blocks, i0, blocks, i1)
  {
  }

  lemma FitAfter(g: Geometry, b0: seq<Block>, i0: seq<Inode>, b1: seq<Block>, i1: seq<Inode>, logs: seq<Logged>,
      more: seq<Logged>)
    requires AllFit(g, b0, i0, logs) && WholeKept(b0, i0, b1, i1) && AllFit(g, b1, i1, more)
    ensures AllFit(g, b0, i0, logs + more)
  {
    hide NoHoles;
  }

  lemma WholeTwice(b0: seq<Block>, i0: seq<Inode>, b1: seq<Block>, i1: seq<Inode>, b2: seq<Block>, i2: seq<Inode>)
    requires WholeKept(b0, i0, b1, i1) && WholeKept(b1, i1, b2, i2)
    ensures WholeKept(b0, i0, b2, i2)
  {
    hide NoHoles;
  }

  /** Every run of reads, writes, truncations and filewrites, up to a panic for want of blocks, is a run on
      plain byte strings: the replies are the reference's and so are the files at the end. Block ownership
      holds throughout, no file without holes gets one, and the transactions fit the log. */
  method Run(fs: Fs, ops: seq<Op>) returns (replies: seq<Reply>, ghost logs: seq<Logged>)
    requires fs.Valid() && forall k :: 0 <= k < |ops| ==> ValidOp(ops[k], |fs.icache|)
    modifies fs
    ensures |replies| <= |ops|
    ensures replies == Answers(old(fs.Files()), ops[..|replies|])
    ensures |replies| < |ops| ==> !ops[|replies|].Truncate? && fs.Exhausted()
    ensures |replies| == |ops| ==>
      fs.Valid() && |fs.icache| == |old(fs.icache)| && fs.Files() == AfterAll(old(fs.Files()), ops)
    ensures |replies| == |ops| ==> WholeKept(old(fs.blocks), old(fs.icache), fs.blocks, fs.icache)
    ensures AllFit(fs.g, old(fs.blocks), old(fs.icache), logs)
    ensures |logs| >= AllTransactions(old(fs.Files()), ops[..|replies|])
    ensures |replies| == |ops| ==> |logs| == AllTransactions(old(fs.Files()), ops)
  {
    hide After, Answer, FilesOf, Owned, NoHoles, Sized, Shadow, WholeKept, AllFit, Transactions, LogCovers, AllLogged;
    replies, logs := [], [];
    NothingOpens(fs.blocks, fs.icache);
    NoneLogged(fs.g, fs.blocks, fs.icache);
    while |replies| < |ops|
      invariant |replies| <= |ops| && fs.Valid() && |fs.icache| == |old(fs.icache)|
      invariant fs.Files() == AfterAll(old(fs.Files()), ops[..|replies|])
      invariant replies == Answers(old(fs.Files()), ops[..|replies|])
      invariant WholeKept(old(fs.blocks), old(fs.icache), fs.blocks, fs.icache)
      invariant AllFit(fs.g, old(fs.blocks), old(fs.icache), logs)
      invariant |logs| == AllTransactions(old(fs.Files()), ops[..|replies|])
    {
      ghost var k, b1, i1 := |replies|, fs.blocks, fs.icache;
      var reply, more := Perform(fs, ops[|replies|]);
      FitAfter(fs.g, old(fs.blocks), old(fs.icache), b1, i1, logs, more);
      logs := logs + more;
      if reply.None? {
        return;
      }
      WholeTwice(old(fs.blocks), old(fs.icache), b1, i1, fs.blocks, fs.icache);
      assert ops[..k + 1][..k] == ops[..k];
      replies := replies + [reply.value];
    }
    assert ops[..|replies|] == ops;
  }

  lemma NoneLogged(g: Geometry, blocks: seq<Block>, inodes: seq<Inode>)
    ensures AllFit(g, blocks, inodes, [])
  {
  }
}
