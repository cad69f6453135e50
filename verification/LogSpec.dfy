/** The on-disk redo log: its header, the order in which a commit and a recovery
    write blocks, and the meaning of replaying a sequence of block writes. */
module LogSpec {
  import opened Blocks
  import opened Params

  type Disk = seq<Block>

  /** One atomic block transfer to the disk. */
  datatype Write = Write(blockno: nat, data: Block)

  /** Block `start` holds the checksum, `start + 1` the header, the rest the logged blocks. */
  datatype Layout = Layout(start: nat, size: nat, diskSize: nat) {
    predicate Valid() {
      2 <= size <= LOGSIZE && start + size <= diskSize < WORD
    }

    /** A block outside the log area. */
    predicate Home(b: nat) {
      b < diskSize && !(start <= b < start + size)
    }
  }

  predicate AllHome(L: Layout, ws: seq<Write>) {
    forall i :: 0 <= i < |ws| ==> L.Home(ws[i].blockno)
  }

  /** The disk after the writes `ws`, in order; a write outside the disk is refused. */
  function Apply(d: Disk, ws: seq<Write>): (r: Disk)
    ensures |r| == |d|
  {
    if ws == [] then d
    else
      var last := ws[|ws| - 1];
      var prev := Apply(d, ws[..|ws| - 1]);
      if last.blockno < |d| then prev[last.blockno := last.data] else prev
  }

  predicate Touches(ws: seq<Write>, b: nat) {
    exists i :: 0 <= i < |ws| && ws[i].blockno == b
  }

  lemma ApplyNone(d: Disk, ws: seq<Write>)
    ensures Apply(d, ws[..0]) == d
  {
  }

  lemma {:induction false} ApplyAppend(d: Disk, ws: seq<Write>, vs: seq<Write>)
    ensures Apply(d, ws + vs) == Apply(Apply(d, ws), vs)
  {
    if vs == [] {
      assert ws + vs == ws;
    } else {
      var k := |vs| - 1;
      assert (ws + vs)[..|ws + vs| - 1] == ws + vs[..k];
      ApplyAppend(d, ws, vs[..k]);
    }
  }

  /** Untouched blocks keep their contents. */
  lemma {:induction false} ApplyFrame(d: Disk, ws: seq<Write>, b: nat)
    requires b < |d| && !Touches(ws, b)
    ensures Apply(d, ws)[b] == d[b]
  {
    if ws != [] {
      var pre := ws[..|ws| - 1];
      ApplyFrame(d, pre, b);
      assert ws[|ws| - 1].blockno != b;
    }
  }

  /** A touched block ends up the same from any starting disk. */
  lemma {:induction false} ApplyTouched(d: Disk, e: Disk, ws: seq<Write>, b: nat)
    requires b < |d| == |e| && Touches(ws, b)
    ensures Apply(d, ws)[b] == Apply(e, ws)[b]
  {
    var k := |ws| - 1;
    if ws[k].blockno != b {
      var i :| 0 <= i < |ws| && ws[i].blockno == b;
      assert ws[..k][i].blockno == b;
      ApplyTouched(d, e, ws[..k], b);
    }
  }

  lemma ApplyAgree(d: Disk, e: Disk, ws: seq<Write>, b: nat)
    requires b < |d| == |e|
    requires d[b] == e[b] || Touches(ws, b)
    ensures Apply(d, ws)[b] == Apply(e, ws)[b]
  {
    if Touches(ws, b) {
      ApplyTouched(d, e, ws, b);
    } else {
      ApplyFrame(d, ws, b);
      ApplyFrame(e, ws, b);
    }
  }

  /** Replaying a redo log over a partly replayed disk gives the fully replayed disk. */
  lemma ReplayIsIdempotent(d: Disk, ws: seq<Write>, k: nat)
    requires k <= |ws|
    ensures Apply(Apply(d, ws[..k]), ws) == Apply(d, ws)
  {
    forall b: nat | b < |d|
      ensures Apply(Apply(d, ws[..k]), ws)[b] == Apply(d, ws)[b]
    {
      if Touches(ws[..k], b) {
        var i :| 0 <= i < k && ws[..k][i].blockno == b;
        assert ws[i].blockno == b;
      } else {
        ApplyFrame(d, ws[..k], b);
      }
      ApplyAgree(Apply(d, ws[..k]), d, ws, b);
    }
  }

  // ---- Log absorption -------------------------------------------------------

  predicate Distinct(txn: seq<Write>) {
    forall i, j :: 0 <= i < j < |txn| ==> txn[i].blockno != txn[j].blockno
  }

  /** The slot that log_write's scan stops at: the first one naming `b`, else the end. */
  function Slot(txn: seq<Write>, b: nat): (i: nat)
    ensures i <= |txn|
    ensures i < |txn| ==> txn[i].blockno == b
    ensures forall j :: 0 <= j < i ==> txn[j].blockno != b
  {
    if txn == [] then 0
    else if txn[0].blockno == b then 0
    else 1 + Slot(txn[1..], b)
  }

  function AbsorbOne(txn: seq<Write>, w: Write): seq<Write> {
    var i := Slot(txn, w.blockno);
    if i < |txn| then txn[i := w] else txn + [w]
  }

  /** The transaction recorded by a sequence of log_write calls. */
  function Absorb(logged: seq<Write>): seq<Write> {
    if logged == [] then []
    else AbsorbOne(Absorb(logged[..|logged| - 1]), logged[|logged| - 1])
  }

  lemma {:induction false} AbsorbShape(L: Layout, logged: seq<Write>)
    requires AllHome(L, logged)
    ensures Distinct(Absorb(logged)) && AllHome(L, Absorb(logged))
  {
    if logged != [] {
      AbsorbShape(L, logged[..|logged| - 1]);
    }
  }

  /** Replacing one write among writes to distinct blocks is the same as writing once more. */
  lemma {:induction false} ReplaceIsRewrite(d: Disk, txn: seq<Write>, i: nat, w: Write)
    requires Distinct(txn) && i < |txn| && txn[i].blockno == w.blockno < |d|
    ensures Apply(d, txn[i := w]) == Apply(d, txn)[w.blockno := w.data]
  {
    var k := |txn| - 1;
    if i == k {
      assert txn[i := w][..k] == txn[..k];
    } else {
      assert txn[i := w][..k] == txn[..k][i := w];
      ReplaceIsRewrite(d, txn[..k], i, w);
      assert txn[k].blockno != w.blockno;
    }
  }

  /** Absorption loses nothing: the recorded transaction has the effect of all the calls. */
  lemma {:induction false} AbsorbKeepsEffect(L: Layout, d: Disk, logged: seq<Write>)
    requires |d| == L.diskSize && AllHome(L, logged)
    ensures Apply(d, Absorb(logged)) == Apply(d, logged)
  {
    if logged != [] {
      var pre, w := logged[..|logged| - 1], logged[|logged| - 1];
      AbsorbKeepsEffect(L, d, pre);
      AbsorbShape(L, pre);
      var txn := Absorb(pre);
      var i := Slot(txn, w.blockno);
      if i < |txn| {
        ReplaceIsRewrite(d, txn, i, w);
      } else {
        assert (txn + [w])[..|txn|] == txn;
      }
    }
  }

  // ---- The header block -----------------------------------------------------

  function HeaderN(h: Block): nat {
    Get32(h, 0)
  }

  function HeaderEntry(h: Block, i: nat): nat
    requires i < LOGSIZE
  {
    Get32(h, 4 + 4 * i)
  }

  /** The header block `h` after write_head's loop has stored the first k entries. */
  function PutEntries(h: Block, txn: seq<Write>, k: nat): Block
    requires k <= |txn| <= LOGSIZE
    requires forall i :: 0 <= i < k ==> txn[i].blockno < WORD
  {
    if k == 0 then h
    else Put32(PutEntries(h, txn, k - 1), 4 * k, txn[k - 1].blockno)
  }

  /** write_head: entries past the new count keep whatever the block held before. */
  function PutHeader(h: Block, txn: seq<Write>): Block
    requires |txn| <= LOGSIZE
    requires forall i :: 0 <= i < |txn| ==> txn[i].blockno < WORD
  {
    PutEntries(Put32(h, 0, |txn|), txn, |txn|)
  }

  lemma {:induction false} PutEntriesReads(h: Block, txn: seq<Write>, k: nat)
    requires k <= |txn| <= LOGSIZE
    requires forall i :: 0 <= i < k ==> txn[i].blockno < WORD
    ensures HeaderN(PutEntries(h, txn, k)) == HeaderN(h)
    ensures forall i :: 0 <= i < LOGSIZE ==>
      HeaderEntry(PutEntries(h, txn, k), i) == if i < k then txn[i].blockno else HeaderEntry(h, i)
  {
    if k > 0 {
      var g := PutEntries(h, txn, k - 1);
      PutEntriesReads(h, txn, k - 1);
      WordFrame(g, 4 * k, txn[k - 1].blockno, 0);
      forall i | 0 <= i < LOGSIZE
        ensures HeaderEntry(PutEntries(h, txn, k), i) == if i < k then txn[i].blockno else HeaderEntry(h, i)
      {
        if i == k - 1 {
          WordRoundTrip(g, 4 * k, txn[k - 1].blockno);
        } else {
          WordFrame(g, 4 * k, txn[k - 1].blockno, 4 + 4 * i);
        }
      }
    }
  }

  /** What read_head finds after write_head. */
  lemma HeaderRoundTrip(h: Block, txn: seq<Write>)
    requires |txn| <= LOGSIZE
    requires forall i :: 0 <= i < |txn| ==> txn[i].blockno < WORD
    ensures HeaderN(PutHeader(h, txn)) == |txn|
    ensures forall i :: 0 <= i < |txn| ==> HeaderEntry(PutHeader(h, txn), i) == txn[i].blockno
    ensures forall i :: |txn| <= i < LOGSIZE ==> HeaderEntry(PutHeader(h, txn), i) == HeaderEntry(h, i)
  {
    PutEntriesReads(Put32(h, 0, |txn|), txn, |txn|);
    WordRoundTrip(h, 0, |txn|);
    forall i | |txn| <= i < LOGSIZE
      ensures HeaderEntry(PutHeader(h, txn), i) == HeaderEntry(h, i)
    {
      WordFrame(h, 0, |txn|, 4 + 4 * i);
    }
  }

  // ---- Commit and recovery as sequences of block writes ----------------------

  function Contents(txn: seq<Write>): (bs: seq<Block>)
    ensures |bs| == |txn|
  {
    seq(|txn|, i requires 0 <= i < |txn| => txn[i].data)
  }

  /** write_checksum and check_checksum read blocks start+1 .. start+n: the header as
      it stands before the commit, and all logged blocks but the last. */
  function Summed(L: Layout, d: Disk, txn: seq<Write>): (bs: seq<Block>)
    requires L.Valid() && |d| == L.diskSize && txn != []
    ensures |bs| == |txn|
  {
    [d[L.start + 1]] + Contents(txn[..|txn| - 1])
  }

  function Checksum(L: Layout, d: Disk, txn: seq<Write>): (c: nat)
    requires L.Valid() && |d| == L.diskSize && txn != []
    ensures c < BSIZE
  {
    BlockSums(Summed(L, d, txn)) % BSIZE
  }

  /** A transaction that fits the log and names only blocks outside it. */
  predicate Loggable(L: Layout, txn: seq<Write>) {
    L.Valid() && |txn| <= L.size - 2 && AllHome(L, txn)
  }

  function LogWrites(L: Layout, txn: seq<Write>): (ws: seq<Write>)
    ensures |ws| == |txn|
  {
    seq(|txn|, i requires 0 <= i < |txn| => Write(L.start + 2 + i, txn[i].data))
  }

  /** Everything commit() writes, in order: the logged blocks, the checksum, the header,
      the home blocks, the emptied header. */
  function CommitWrites(L: Layout, d: Disk, txn: seq<Write>): (ws: seq<Write>)
    requires Loggable(L, txn) && |d| == L.diskSize
    ensures |ws| == if txn == [] then 0 else 2 * |txn| + 3
  {
    if txn == [] then []
    else
      var header := PutHeader(d[L.start + 1], txn);
      LogWrites(L, txn)
      + [Write(L.start, Put32(d[L.start], 0, Checksum(L, d, txn))), Write(L.start + 1, header)]
      + txn
      + [Write(L.start + 1, PutHeader(header, []))]
  }

  predicate HeaderFits(L: Layout, h: Block)
    requires L.Valid()
  {
    HeaderN(h) <= L.size - 2 && forall i :: 0 <= i < HeaderN(h) ==> L.Home(HeaderEntry(h, i))
  }

  /** The header on disk names only blocks that a commit could have named. */
  predicate ValidHeader(L: Layout, d: Disk) {
    L.Valid() && |d| == L.diskSize && HeaderFits(L, d[L.start + 1])
  }

  /** The transaction that the log on disk describes. */
  function DiskTxn(L: Layout, d: Disk): (txn: seq<Write>)
    requires ValidHeader(L, d)
    ensures |txn| == HeaderN(d[L.start + 1])
    ensures Loggable(L, txn)
  {
    seq(HeaderN(d[L.start + 1]), i requires 0 <= i < HeaderN(d[L.start + 1]) =>
      Write(HeaderEntry(d[L.start + 1], i), d[L.start + 2 + i]))
  }

  /** recover_from_log's gate: at boot log.lh.n is still 0, so the sum that the stored
      checksum is compared with is the sum over no blocks. */
  predicate GatePasses(L: Layout, d: Disk)
    requires L.Valid() && |d| == L.diskSize
  {
    Get32(d[L.start], 0) == 0
  }

  function BootWrites(L: Layout, d: Disk): seq<Write>
    requires ValidHeader(L, d)
  {
    if GatePasses(L, d)
    then DiskTxn(L, d) + [Write(L.start + 1, PutHeader(d[L.start + 1], []))]
    else []
  }

  /** A refused gate leaves the disk as it is. */
  lemma BootRefused(L: Layout, d: Disk)
    requires ValidHeader(L, d) && !GatePasses(L, d)
    ensures BootWrites(L, d) == [] && Apply(d, BootWrites(L, d)) == d
  {
  }
}
