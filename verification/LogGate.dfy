/** Runs in which the boot-time gate refuses a committed log, and what they lead to. */
module LogGate {
  import opened Blocks
  import opened Wrappers
  import opened LogSpec
  import opened LogCrash

  /** Storing a word over a zero word adds its bytes, weighted by their position. */
  lemma WordOverZero(b: Block, off: nat, v: nat)
    requires off + 4 <= BSIZE && v < 65536
    requires b[off] == b[off + 1] == b[off + 2] == b[off + 3] == 0
    ensures BlockSum(Put32(b, off, v)) == BlockSum(b) + (off + 1) * (v % 256) + (off + 2) * (v / 256)
  {
    var b1 := b[off := v % 256];
    var b2 := b1[off + 1 := v / 256 % 256];
    var b3 := b2[off + 2 := v / 65536 % 256];
    WeightedUpdate(b, off, v % 256, BSIZE);
    WeightedUpdate(b1, off + 1, v / 256 % 256, BSIZE);
    WeightedUpdate(b2, off + 2, v / 65536 % 256, BSIZE);
    WeightedUpdate(b3, off + 3, v / 16777216, BSIZE);
    assert v / 65536 == 0 && v / 16777216 == 0 && v / 256 % 256 == v / 256;
  }

  /** The header of a one-block transaction, as the first commit and its clearing leave it. */
  function OneEntry(n: nat, a: nat): Block
    requires n < 256 && a < 65536
  {
    Put32(Put32(ZeroBlock(), 0, n), 4, a)
  }

  lemma OneEntrySum(n: nat, a: nat)
    requires n < 256 && a < 65536
    ensures BlockSum(OneEntry(n, a)) == n + 5 * (a % 256) + 6 * (a / 256)
  {
    WeightedZero(BSIZE);
    WordOverZero(ZeroBlock(), 0, n);
    WordOverZero(Put32(ZeroBlock(), 0, n), 4, a);
  }

  lemma OneEntryHeader(n: nat, a: nat, b: Block)
    requires n < 256 && a < 65536
    ensures PutHeader(ZeroBlock(), [Write(a, b)]) == OneEntry(1, a)
    ensures PutHeader(OneEntry(n, a), [Write(a, b)]) == OneEntry(1, a)
    ensures PutHeader(OneEntry(n, a), []) == OneEntry(0, a)
  {
    var w := [Write(a, b)];
    assert PutHeader(ZeroBlock(), w) == Put32(PutEntries(Put32(ZeroBlock(), 0, 1), w, 0), 4, a);
    assert PutHeader(OneEntry(n, a), w) == Put32(PutEntries(Put32(OneEntry(n, a), 0, 1), w, 0), 4, a);
  }

  lemma OneBlockChecksum(L: Layout, d: Disk, w: Write)
    requires L.Valid() && |d| == L.diskSize
    ensures Checksum(L, d, [w]) == BlockSum(d[L.start + 1]) % BSIZE
  {
    var bs := [d[L.start + 1]];
    assert Summed(L, d, [w]) == bs;
    assert bs[..|bs| - 1] == [];
    assert BlockSums(bs) == BlockSums([]) + BlockSum(bs[0]);
    assert BlockSums(bs) == BlockSum(d[L.start + 1]);
    assert BlockSums(Summed(L, d, [w])) == BlockSums(bs);
  }

  /** A fresh disk: what mkfs leaves in the checksum and header blocks. */
  predicate Fresh(L: Layout, d: Disk) {
    L.Valid() && |d| == L.diskSize && d[L.start] == ZeroBlock() && d[L.start + 1] == ZeroBlock()
  }

  /** A block number whose entry, alone in an emptied header, gives that header a sum of 511
      modulo 512; with the count 1 in front of it the sum becomes 0. Block 357 is one. */
  predicate Awkward(a: nat) {
    a < 65536 && (5 * (a % 256) + 6 * (a / 256)) % BSIZE == 511
  }

  lemma AwkwardChecksum(L: Layout, d: Disk, n: nat, a: nat, w: Write)
    requires L.Valid() && |d| == L.diskSize && Awkward(a) && n < 2
    requires d[L.start + 1] == OneEntry(n, a)
    ensures Checksum(L, d, [w]) == if n == 0 then 511 else 0
  {
    OneBlockChecksum(L, d, w);
    OneEntrySum(n, a);
  }

  /** The disk after writing block a in one transaction that completes, then again in one
      that crashes right after its commit point. */
  function Twice(L: Layout, d: Disk, a: nat, x: Block, y: Block): Disk
    requires Fresh(L, d) && L.size >= 3 && L.Home(a) && Awkward(a)
  {
    var c := Apply(d, CommitWrites(L, d, [Write(a, x)]));
    Apply(c, CommitWrites(L, c, [Write(a, y)])[..3])
  }

  lemma FirstCommit(L: Layout, d: Disk, a: nat, x: Block)
    requires Fresh(L, d) && L.size >= 3 && L.Home(a) && Awkward(a)
    ensures var c := Apply(d, CommitWrites(L, d, [Write(a, x)]));
      c[L.start + 1] == OneEntry(0, a) && c[a] == x
  {
    hide PutHeader, OneEntry;
    var v := [Write(a, x)];
    var ws := CommitWrites(L, d, v);
    AfterCommit(L, d, v);
    DistinctApply(d, v, 0);
    OneEntryHeader(1, a, x);
    assert ws[|ws| - 1] == Write(L.start + 1, OneEntry(0, a));
  }

  lemma SecondCommitPoint(L: Layout, c: Disk, a: nat, y: Block)
    requires L.Valid() && |c| == L.diskSize && L.size >= 3 && L.Home(a) && Awkward(a)
    requires c[L.start + 1] == OneEntry(0, a)
    ensures var e := Apply(c, CommitWrites(L, c, [Write(a, y)])[..3]);
      && ValidHeader(L, e) && DiskTxn(L, e) == [Write(a, y)] && !GatePasses(L, e)
      && e[L.start + 1] == OneEntry(1, a) && e[a] == c[a]
  {
    hide Apply, CommitWrites, PutHeader, Installing, Awkward, OneEntry;
    var w := [Write(a, y)];
    WhileInstalling(L, c, w, 3);
    JustCommitted(L, c, a, y, Apply(c, CommitWrites(L, c, w)[..3]));
  }

  lemma JustCommitted(L: Layout, c: Disk, a: nat, y: Block, e: Disk)
    requires L.Valid() && |c| == L.diskSize && L.size >= 3 && L.Home(a) && Awkward(a)
    requires c[L.start + 1] == OneEntry(0, a) && Installing(L, c, [Write(a, y)], 0, e)
    ensures ValidHeader(L, e) && DiskTxn(L, e) == [Write(a, y)] && !GatePasses(L, e)
    ensures e[L.start + 1] == OneEntry(1, a) && e[a] == c[a]
  {
    hide Apply, PutHeader, OneEntry, Checksum, Get32;
    var w := [Write(a, y)];
    InstallingReads(L, c, w, 0, e);
    OneEntryHeader(0, a, y);
    ApplyNone(c, w);
    AwkwardChecksum(L, c, 0, a, w[0]);
  }

  lemma TwiceReads(L: Layout, d: Disk, a: nat, x: Block, y: Block)
    requires Fresh(L, d) && L.size >= 3 && L.Home(a) && Awkward(a)
    ensures var e := Twice(L, d, a, x, y);
      && ValidHeader(L, e) && DiskTxn(L, e) == [Write(a, y)] && !GatePasses(L, e)
      && e[L.start + 1] == OneEntry(1, a) && e[a] == x
  {
    hide Apply, CommitWrites, OneEntry;
    FirstCommit(L, d, a, x);
    SecondCommitPoint(L, Apply(d, CommitWrites(L, d, [Write(a, x)])), a, y);
  }

  /** A transaction that reached its commit point can be lost: here the second write of block
      a was committed, and the boot after the crash leaves the first one in place. */
  lemma CommittedYetLost(L: Layout, d: Disk, a: nat, x: Block, y: Block)
    requires Fresh(L, d) && L.size >= 3 && L.Home(a) && Awkward(a) && x != y
    ensures var v, w := Transaction([Write(a, x)], None), Transaction([Write(a, y)], Some(3));
      var e := Twice(L, d, a, x, y);
      && ValidHeader(L, e) && Refused(L, State(e, false), Boot(None))
      && Apply(e, BootWrites(L, e))[a] == x && Durable(d, [v, w])[a] == y
  {
    hide Twice, BootWrites, Apply, Durable, OneEntry;
    TwiceReads(L, d, a, x, y);
    BootRefused(L, Twice(L, d, a, x, y));
    TwoCommits(d, a, x, y);
  }

  lemma TwoCommits(d: Disk, a: nat, x: Block, y: Block)
    requires a < |d|
    ensures Durable(d, [Transaction([Write(a, x)], None), Transaction([Write(a, y)], Some(3))])[a] == y
  {
    var v, w := Transaction([Write(a, x)], None), Transaction([Write(a, y)], Some(3));
    assert w.logged[..0] == [] && Absorb(w.logged) == w.logged && Committed(w);
    assert [v, w][..1] == [v];
  }

  /** After such a refusal the next transaction can corrupt a block it never names: it logs
      block c and crashes before its own commit point, and the boot after that, whose gate
      passes, writes block c's contents over block a. */
  lemma RefusedLogCorrupts(L: Layout, d: Disk, a: nat, c: nat, x: Block, y: Block, z: Block)
    requires Fresh(L, d) && L.size >= 3 && L.Home(a) && Awkward(a) && L.Home(c)
    requires z != x && z != y && c != a
    ensures var e := Twice(L, d, a, x, y);
      var f := Apply(e, CommitWrites(L, e, [Write(c, z)])[..2]);
      && ValidHeader(L, f) && GatePasses(L, f)
      && Apply(f, BootWrites(L, f))[a] == z
  {
    hide Apply, CommitWrites, BootWrites, Twice, OneEntry;
    TwiceReads(L, d, a, x, y);
    var e, w := Twice(L, d, a, x, y), [Write(c, z)];
    LoggedAndSummed(L, e, w);
    AwkwardChecksum(L, e, 1, a, w[0]);
    InstallsZ(L, e, Apply(e, CommitWrites(L, e, w)[..2]), a, y, z);
  }

  lemma LoggedAndSummed(L: Layout, e: Disk, w: seq<Write>)
    requires Loggable(L, w) && |e| == L.diskSize && |w| == 1
    ensures var f := Apply(e, CommitWrites(L, e, w)[..2]);
      f[L.start + 1] == e[L.start + 1] && f[L.start + 2] == w[0].data && Get32(f[L.start], 0) == Checksum(L, e, w)
  {
    var sum := Put32(e[L.start], 0, Checksum(L, e, w));
    assert CommitWrites(L, e, w)[..2] == [] + [Write(L.start + 2, w[0].data), Write(L.start, sum)];
    TwoMoreWrites(e, [], Write(L.start + 2, w[0].data), Write(L.start, sum));
    WordRoundTrip(e[L.start], 0, Checksum(L, e, w));
  }

  lemma InstallsZ(L: Layout, e: Disk, f: Disk, a: nat, y: Block, z: Block)
    requires ValidHeader(L, e) && DiskTxn(L, e) == [Write(a, y)]
    requires |f| == |e| && f[L.start + 1] == e[L.start + 1] && f[L.start + 2] == z && GatePasses(L, f)
    requires L.Home(a) && Awkward(a)
    ensures ValidHeader(L, f) && Apply(f, BootWrites(L, f))[a] == z
  {
    assert DiskTxn(L, e)[0].blockno == a;
    assert DiskTxn(L, f) == [Write(a, z)];
    var h := Write(L.start + 1, PutHeader(f[L.start + 1], []));
    assert BootWrites(L, f) == [] + [Write(a, z), h];
    TwoMoreWrites(f, [], Write(a, z), h);
  }

  // ---- When a log left behind does harm ----------------------------------------

  /** The log that is left when a transaction stops after k block writes, before its header: the old
      header's blocks, with the contents that the log blocks now have. */
  function Stale(L: Layout, d: Disk, txn: seq<Write>, k: nat): (ws: seq<Write>)
    requires ValidHeader(L, d)
    ensures |ws| == |DiskTxn(L, d)|
  {
    var left := DiskTxn(L, d);
    seq(|left|, i requires 0 <= i < |left| =>
      Write(left[i].blockno, if i < k && i < |txn| then txn[i].data else left[i].data))
  }

  /** The checksum that the next boot finds. */
  function StaleSum(L: Layout, d: Disk, txn: seq<Write>, k: nat): nat
    requires L.Valid() && |d| == L.diskSize && txn != []
  {
    if k <= |txn| then Get32(d[L.start], 0) else Checksum(L, d, txn)
  }

  lemma LeftBehind(L: Layout, d: Disk, txn: seq<Write>, k: nat)
    requires ValidHeader(L, d) && Loggable(L, txn) && txn != [] && k <= |txn| + 1
    ensures var c := Apply(d, CommitWrites(L, d, txn)[..k]);
      && ValidHeader(L, c) && HomeAgrees(L, c, d) && Get32(c[L.start], 0) == StaleSum(L, d, txn, k)
      && c[L.start + 1] == d[L.start + 1] && DiskTxn(L, c) == Stale(L, d, txn, k)
  {
    hide CommitWrites, LogWrites, Put32, Get32, Checksum, Apply, HeaderN, HeaderEntry;
    var j := if k <= |txn| then k else |txn|;
    var c := Apply(d, CommitWrites(L, d, txn)[..k]);
    CommitStart(L, d, txn, k);
    AfterLogWrites(L, d, txn, j);
    if |txn| < k {
      OneMoreWrite(d, LogWrites(L, txn)[..|txn|], Write(L.start, Put32(d[L.start], 0, Checksum(L, d, txn))));
      WordRoundTrip(d[L.start], 0, Checksum(L, d, txn));
    }
    assert DiskTxn(L, c) == Stale(L, d, txn, k);
  }

  lemma BootInstalls(L: Layout, c: Disk)
    requires ValidHeader(L, c)
    ensures HomeAgrees(L, Apply(c, BootWrites(L, c)), if GatePasses(L, c) then Apply(c, DiskTxn(L, c)) else c)
  {
    hide PutHeader, Apply;
    if GatePasses(L, c) {
      ApplyAppend(c, DiskTxn(L, c), [Write(L.start + 1, PutHeader(c[L.start + 1], []))]);
      EmptiedLog(L, Apply(c, DiskTxn(L, c)), c[L.start + 1]);
    } else {
      NoWrites(L, c);
    }
  }

  /** A transaction that stops before its own header write, over any log left behind: the boot after it
      writes the old header's blocks with whatever the log blocks hold by then if the checksum it finds is
      0, and nothing otherwise. */
  lemma StaleRecovery(L: Layout, d: Disk, txn: seq<Write>, k: nat)
    requires ValidHeader(L, d) && Loggable(L, txn) && txn != [] && k <= |txn| + 1
    ensures var c := Apply(d, CommitWrites(L, d, txn)[..k]);
      && ValidHeader(L, c)
      && HomeAgrees(L, Apply(c, BootWrites(L, c)), if StaleSum(L, d, txn, k) == 0 then Apply(d, Stale(L, d, txn, k))
        else d)
  {
    hide Apply, CommitWrites, Checksum, Get32, BootWrites, Stale, DiskTxn;
    var c := Apply(d, CommitWrites(L, d, txn)[..k]);
    LeftBehind(L, d, txn, k);
    BootInstalls(L, c);
    forall b: nat | L.Home(b)
      ensures Apply(c, Stale(L, d, txn, k))[b] == Apply(d, Stale(L, d, txn, k))[b]
    {
      ApplyAgree(c, d, Stale(L, d, txn, k), b);
    }
  }

  /** So the home blocks come through unharmed if and only if that checksum is not 0, or every block named
      by the old header already held what the log blocks hold now. */
  lemma UnharmedIff(L: Layout, d: Disk, txn: seq<Write>, k: nat)
    requires ValidHeader(L, d) && Distinct(DiskTxn(L, d)) && Loggable(L, txn) && txn != [] && k <= |txn| + 1
    ensures var c := Apply(d, CommitWrites(L, d, txn)[..k]);
      var left := Stale(L, d, txn, k);
      && ValidHeader(L, c)
      && (HomeAgrees(L, Apply(c, BootWrites(L, c)), d) <==>
           || StaleSum(L, d, txn, k) != 0
           || forall i :: 0 <= i < |left| ==> d[left[i].blockno] == left[i].data)
  {
    hide Apply, CommitWrites, BootWrites, StaleSum;
    var left := Stale(L, d, txn, k);
    StaleRecovery(L, d, txn, k);
    assert Loggable(L, left) && Distinct(left);
    PartOfTransaction(L, d, left, 0);
    ApplyNone(d, left);
  }
}
