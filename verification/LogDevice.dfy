/** The log as the kernel runs it: an object whose fields are the disk, the pinned buffers and
    the in-memory header. `history` records the block writes in the order they reach the disk,
    so that a contract about it covers a crash after any one of them. */
module LogDevice {
  import opened BlockDevice
  import opened Blocks
  import opened Params
  import opened LogSpec
  import opened LogCrash

  datatype Verdict = Ok | TooBig | OutsideTransaction

  /** The in-memory header and the pinned buffers hold the transaction `txn`. */
  ghost predicate Recorded(L: Layout, txn: seq<Write>, n: nat, block: seq<nat>, pinned: map<nat, Block>) {
    && |block| == LOGSIZE && n == |txn|
    && Loggable(L, txn) && Distinct(txn)
    && (forall i :: 0 <= i < n ==> block[i] == txn[i].blockno)
    && (forall i :: 0 <= i < n ==> txn[i].blockno in pinned && pinned[txn[i].blockno] == txn[i].data)
    && (forall b: nat :: b in pinned ==> Touches(txn, b))
  }

  class Log {
    const L: Layout
    var disk: Disk
    /** Contents of the buffers that B_DIRTY keeps in the cache; every other read sees the disk. */
    var pinned: map<nat, Block>
    var outstanding: nat
    var committing: bool
    var checksum: nat
    /** log.lh: the count and the block numbers, of which only the first n are meaningful. */
    var n: nat
    var block: seq<nat>
    ghost var history: seq<Write>
    /** The transaction recorded so far: the first n block numbers and their pinned contents. */
    ghost var txn: seq<Write>

    ghost predicate Valid()
      reads this
    {
      |disk| == L.diskSize && Recorded(L, txn, n, block, pinned)
    }

    /** The disk and what is only in memory. */
    ghost function Dev(): Device
      reads this
    {
      Device(disk, pinned)
    }

    ghost function View(b: nat): Block
      reads this
      requires b < |disk|
    {
      BlockDevice.View(Dev(), b)
    }

    /** The kernel's state as it finds `d` at boot: nothing pinned, log.lh.n still 0. */
    constructor (layout: Layout, d: Disk)
      requires layout.Valid() && |d| == layout.diskSize
      ensures Valid() && L == layout && disk == d && txn == [] && outstanding == 0 && !committing && history == []
    {
      L, disk, pinned, outstanding, committing, checksum := layout, d, map[], 0, false, 0;
      n, block, history, txn := 0, seq(LOGSIZE, i => 0), [], [];
    }

    method Bread(b: nat) returns (data: Block)
      requires b < |disk|
      ensures data == View(b)
    {
      data := if b in pinned then pinned[b] else disk[b];
    }

    method Bwrite(b: nat, data: Block)
      requires b < |disk|
      modifies this`disk, this`pinned, this`history
      ensures disk == old(disk)[b := data] && pinned == old(pinned) - {b}
      ensures history == old(history) + [Write(b, data)]
      ensures Dev() == Written(old(Dev()), b, data)
    {
      CallEffects(Dev(), b, data);
      disk := disk[b := data];
      pinned := pinned - {b};
      history := history + [Write(b, data)];
    }

    /** log_write: absorbs a repeated block, otherwise appends; refuses exactly as the code
        panics, which it does before looking whether the block is a repeat. */
    method LogWrite(b: nat, data: Block) returns (v: Verdict)
      requires Valid() && L.Home(b)
      modifies this`pinned, this`n, this`block, this`txn
      ensures Valid()
      ensures v == TooBig <==> old(n) >= L.size - 2
      ensures v == OutsideTransaction <==> old(n) < L.size - 2 && outstanding < 1
      ensures v == Ok ==> txn == AbsorbOne(old(txn), Write(b, data)) && Dev() == Pinned(old(Dev()), b, data)
      ensures v != Ok ==> unchanged(this)
    {
      if n >= LOGSIZE || n >= L.size - 1 - 1 {
        return TooBig;
      }
      if outstanding < 1 {
        return OutsideTransaction;
      }
      var i := 0;
      while i < n
        invariant 0 <= i <= n
        invariant forall j :: 0 <= j < i ==> block[j] != b
      {
        if block[i] == b {
          break;
        }
        i := i + 1;
      }
      CallEffects(Dev(), b, data);
      hide Pinned, AbsorbOne, Loggable, Distinct, Touches;
      RecordOne(L, txn, n, block, pinned, Write(b, data), i);
      txn := AbsorbOne(txn, Write(b, data));
      block := block[i := b];
      if i == n {
        n := n + 1;
      }
      pinned := pinned[b := data];
      v := Ok;
    }

    method WriteLog()
      requires Valid()
      modifies this`disk, this`pinned, this`history
      ensures Valid() && pinned == old(pinned)
      ensures disk == Apply(old(disk), LogWrites(L, txn))
      ensures history == old(history) + LogWrites(L, txn)
    {
      hide Apply;
      var tail := 0;
      ghost var lw := LogWrites(L, txn);
      ApplyNone(disk, lw);
      while tail < n
        invariant 0 <= tail <= n
        invariant Valid() && pinned == old(pinned)
        invariant disk == Apply(old(disk), lw[..tail])
        invariant history == old(history) + lw[..tail]
      {
        var from := Bread(block[tail]);
        assert from == txn[tail].data;
        Bwrite(L.start + tail + 1 + 1, from);
        assert pinned == old(pinned);
        ApplyNext(old(disk), lw, tail);
        tail := tail + 1;
      }
      assert lw[..n] == lw;
    }

    /** The loop over bytes: unsigned addition that wraps at 32 bits. */
    method AddBytes(acc: nat, b: Block) returns (sum: nat)
      requires acc < WORD
      ensures sum == (acc + BlockSum(b)) % WORD
    {
      hide Weighted;
      NoBytes(acc, b);
      sum := acc;
      var j := 0;
      while j < BSIZE
        invariant 0 <= j <= BSIZE
        invariant sum == (acc + Weighted(b, j)) % WORD
      {
        NextByte(acc, b, j);
        sum := (sum + (j + 1) * b[j]) % WORD;
        j := j + 1;
      }
    }

    /** The loop over log blocks shared by write_checksum, check_checksum and recovery: for a
        log that fits the disk format the 32-bit sum never wraps. */
    method SumBlocks(first: nat, count: nat) returns (sum: nat)
      requires first + count <= |disk| && count <= LOGSIZE
      requires forall b :: first <= b < first + count ==> b !in pinned
      ensures sum == BlockSums(disk[first..first + count])
    {
      sum := 0;
      var i := 0;
      while i < count
        invariant 0 <= i <= count
        invariant sum == BlockSums(disk[first..first + i]) < WORD
      {
        var logblock := Bread(first + i);
        sum := AddBytes(sum, logblock);
        assert disk[first..first + i + 1][..i] == disk[first..first + i];
        BlockSumsBound(disk[first..first + i + 1]);
        i := i + 1;
      }
    }

    /** The blocks summed are start+1 .. start+n, one short of the last logged block. */
    method WriteChecksum()
      requires Valid() && n > 0
      modifies this`disk, this`pinned, this`history, this`checksum
      ensures Valid() && pinned == old(pinned)
      ensures disk[L.start + 1..L.start + 1 + n] == old(disk)[L.start + 1..L.start + 1 + n]
      ensures checksum == BlockSums(disk[L.start + 1..L.start + 1 + n]) % BSIZE
      ensures disk == old(disk)[L.start := Put32(old(disk)[L.start], 0, checksum)]
      ensures history == old(history) + [Write(L.start, disk[L.start])]
    {
      checksum := SumBlocks(L.start + 1, n);
      checksum := checksum % BSIZE;
      var check := Bread(L.start);
      Bwrite(L.start, Put32(check, 0, checksum));
      assert pinned == old(pinned);
      var test := Bread(L.start);
      WordRoundTrip(check, 0, checksum);
      assert Get32(test, 0) == checksum;
      assert disk[L.start + 1..L.start + 1 + n] == old(disk)[L.start + 1..L.start + 1 + n];
    }

    method CheckChecksum() returns (ok: bool)
      requires Valid()
      ensures ok <==> checksum == BlockSums(disk[L.start + 1..L.start + 1 + n]) % BSIZE
    {
      var sum := SumBlocks(L.start + 1, n);
      ok := checksum == sum % BSIZE;
    }

    /** write_head. The pinned buffers may already have been installed, so only the header
        itself is required to make sense. */
    method WriteHead(ghost txn: seq<Write>)
      requires L.Valid() && |disk| == L.diskSize && |block| == LOGSIZE
      requires n == |txn| && Loggable(L, txn) && forall i :: 0 <= i < n ==> block[i] == txn[i].blockno
      requires L.start + 1 !in pinned
      modifies this`disk, this`pinned, this`history
      ensures pinned == old(pinned)
      ensures disk == old(disk)[L.start + 1 := PutHeader(old(disk)[L.start + 1], txn)]
      ensures history == old(history) + [Write(L.start + 1, disk[L.start + 1])]
    {
      var hb := Bread(L.start + 1);
      ghost var h := Put32(hb, 0, n);
      hb := Put32(hb, 0, n);
      var i := 0;
      while i < n
        invariant 0 <= i <= n
        invariant hb == PutEntries(h, txn, i)
      {
        hb := Put32(hb, 4 * (i + 1), block[i]);
        i := i + 1;
      }
      Bwrite(L.start + 1, hb);
    }

    /** install_trans: `ws` is what the log on disk and the header in memory describe. */
    method InstallTrans(ghost ws: seq<Write>)
      requires |disk| == L.diskSize && |block| == LOGSIZE && n == |ws| && Loggable(L, ws)
      requires forall i :: 0 <= i < n ==> block[i] == ws[i].blockno
      requires LogHolds(L, disk, ws)
      requires forall b: nat :: b in pinned ==> Touches(ws, b)
      modifies this`disk, this`pinned, this`history
      ensures pinned == map[]
      ensures disk == Apply(old(disk), ws)
      ensures history == old(history) + ws
    {
      hide Apply;
      var tail := 0;
      ApplyNone(disk, ws);
      while tail < n
        invariant 0 <= tail <= n
        invariant disk == Apply(old(disk), ws[..tail])
        invariant history == old(history) + ws[..tail]
        invariant forall b: nat :: b in pinned ==> Touches(ws[tail..], b)
      {
        LogAreaFrame(L, old(disk), ws, tail);
        var lbuf := Bread(L.start + tail + 1 + 1);
        assert lbuf == ws[tail].data;
        Bwrite(block[tail], lbuf);
        ApplyNext(old(disk), ws, tail);
        TouchesRest(ws, tail);
        tail := tail + 1;
      }
      assert ws[..n] == ws;
      assert pinned.Keys == {};
    }

    /** The part of commit up to the commit point. The checksum just stored always checks, so
        the panic in the other branch is never reached. */
    method WriteAhead()
      requires Valid() && n > 0
      modifies this`disk, this`pinned, this`history, this`checksum
      ensures Valid() && pinned == old(pinned)
      ensures disk == Apply(old(disk), CommitWrites(L, old(disk), txn)[..n + 2])
      ensures history == old(history) + CommitWrites(L, old(disk), txn)[..n + 2]
    {
      hide CommitWrites, Apply, PutHeader, Checksum, Put32;
      ghost var ws := CommitWrites(L, disk, txn)[..n + 2];
      ghost var target := Apply(disk, ws);
      WriteLog();
      ghost var c := disk;
      AheadWrites(L, c, old(disk), txn);
      WriteChecksum();
      var ok := CheckChecksum();
      if !ok {
        assert false;
      }
      ghost var sum := disk[L.start];
      assert disk == c[L.start := sum];
      WriteHead(txn);
      ghost var h := disk[L.start + 1];
      assert disk == c[L.start := sum][L.start + 1 := h];
      assert disk == target;
      AppendTwo(old(history), LogWrites(L, txn), Write(L.start, sum), Write(L.start + 1, h));
    }

    /** commit, while `committing` keeps begin_op waiting: the block writes are those of CommitWrites, in order. */
    method Commit()
      requires Valid() && committing
      modifies this`disk, this`pinned, this`history, this`checksum, this`n, this`txn
      ensures Valid() && txn == []
      ensures disk == Apply(old(disk), CommitWrites(L, old(disk), old(txn)))
      ensures history == old(history) + CommitWrites(L, old(disk), old(txn))
      ensures old(txn) != [] ==> Get32(disk[L.start + 1], 0) == 0
    {
      hide CommitWrites, Apply, PutHeader, Checksum, Put32, Get32;
      if n == 0 {
        NothingToCommit(L, disk);
      } else {
        hide LogHolds, HomeAgrees;
        AtCommitPoint(L, disk, txn);
        ghost var ahead := CommitWrites(L, disk, txn)[..n + 2];
        WriteAhead();
        CommitTail(L, old(disk), disk, txn);
        InstallTrans(txn);
        n := 0;
        ghost var h := disk[L.start + 1];
        WriteHead([]);
        Emptied(h);
        AppendThree(old(history), ahead, txn, Write(L.start + 1, disk[L.start + 1]));
        txn := [];
      }
    }

    /** One turn of begin_op's loop: the operation is admitted, or sleeps and tries again. */
    method BeginOp() returns (admitted: bool)
      requires Valid()
      modifies this`outstanding
      ensures Valid()
      ensures admitted <==> !committing && n + (old(outstanding) + 1) * MAXOPBLOCKS <= LOGSIZE - 2
      ensures outstanding == old(outstanding) + if admitted then 1 else 0
    {
      admitted := !committing && n + (outstanding + 1) * MAXOPBLOCKS <= LOGSIZE - 2;
      if admitted {
        outstanding := outstanding + 1;
      }
    }

    /** end_op: the last operation commits. What every home block reads as does not change, and after
        the last operation it is what the disk holds. */
    method EndOp()
      requires Valid() && outstanding >= 1 && !committing
      modifies this
      ensures Valid() && outstanding == old(outstanding) - 1 && !committing
      ensures outstanding > 0 ==>
        disk == old(disk) && txn == old(txn) && pinned == old(pinned) && history == old(history)
      ensures outstanding == 0 ==> txn == [] && history == old(history) + CommitWrites(L, old(disk), old(txn))
      ensures outstanding == 0 ==> disk == Apply(old(disk), CommitWrites(L, old(disk), old(txn)))
      ensures outstanding == 0 ==> forall b: nat :: L.Home(b) ==> disk[b] == old(View(b))
      ensures outstanding == 0 && old(txn) != [] ==> Get32(disk[L.start + 1], 0) == 0
      ensures forall b: nat :: L.Home(b) ==> View(b) == old(View(b))
    {
      hide CommitWrites, Apply, Get32;
      outstanding := outstanding - 1;
      if outstanding > 0 {
        return;
      }
      committing := true;
      ghost var d, t, p := disk, txn, pinned;
      CommitKeepsView(L, d, t, n, block, p);
      Commit();
      NothingPinned(L, n, block, pinned);
      committing := false;
    }

    /** One operation of a system call, from begin_op to end_op, that logs at most MAXOPBLOCKS distinct
        blocks: it is admitted and no log_write refuses it, its block writes are those of a transaction with
        its calls, and what the home blocks read as, and hold on disk, is what the calls wrote. */
    method Transact(writes: seq<Write>)
      requires Valid() && txn == [] && outstanding == 0 && !committing && AllHome(L, writes)
      requires |Absorb(writes)| <= MAXOPBLOCKS && MAXOPBLOCKS + 2 < L.size
      modifies this
      ensures Valid() && txn == [] && outstanding == 0 && !committing && Loggable(L, Absorb(writes))
      ensures history == old(history) + CommitWrites(L, old(disk), Absorb(writes))
      ensures disk == Apply(old(disk), CommitWrites(L, old(disk), Absorb(writes)))
      ensures forall b: nat :: L.Home(b) ==> View(b) == disk[b] == Apply(old(disk), writes)[b]
    {
      hide CommitWrites, Apply, Absorb, AbsorbOne;
      AbsorbNone(writes);
      AbsorbShape(L, writes);
      NothingPinned(L, n, block, pinned);
      var admitted := BeginOp();
      var k := 0;
      while k < |writes|
        invariant 0 <= k <= |writes| && Valid() && outstanding == 1 && !committing
        invariant txn == Absorb(writes[..k]) && disk == old(disk) && history == old(history)
      {
        AbsorbGrows(writes, k);
        var v := LogWrite(writes[k].blockno, writes[k].data);
        k := k + 1;
      }
      assert writes[..k] == writes;
      OnHome(L, disk, writes);
      EndOp();
      NothingPinned(L, n, block, pinned);
    }

    method ReadHead()
      requires ValidHeader(L, disk) && |block| == LOGSIZE && pinned == map[]
      modifies this`n, this`block
      ensures |block| == LOGSIZE && n == |DiskTxn(L, disk)|
      ensures forall i :: 0 <= i < n ==> block[i] == DiskTxn(L, disk)[i].blockno
    {
      var lh := Bread(L.start + 1);
      n := Get32(lh, 0);
      var i := 0;
      while i < n
        invariant 0 <= i <= n == HeaderN(lh) <= LOGSIZE == |block|
        invariant forall j :: 0 <= j < i ==> block[j] == HeaderEntry(lh, j)
      {
        block := block[i := Get32(lh, 4 + 4 * i)];
        i := i + 1;
      }
    }

    /** recover_from_log, called with log.lh.n at its boot value. */
    method Recover() returns (matched: bool)
      requires Valid() && txn == [] && ValidHeader(L, disk)
      modifies this`disk, this`pinned, this`history, this`n, this`block
      ensures Valid() && txn == []
      ensures matched <==> GatePasses(L, old(disk))
      ensures disk == Apply(old(disk), BootWrites(L, old(disk)))
      ensures history == old(history) + BootWrites(L, old(disk))
      ensures matched ==> Get32(disk[L.start + 1], 0) == 0
    {
      hide BootWrites, Apply, PutHeader, Get32;
      assert pinned.Keys == {};
      var buf := Bread(L.start);
      var stored := Get32(buf, 0);
      var sum := SumBlocks(L.start + 1 + 1, n);
      assert disk[L.start + 2..L.start + 2 + n] == [];
      matched := stored == sum % BSIZE;
      if !matched {
        BootRefused(L, disk);
      } else {
        ghost var ws := DiskTxn(L, disk);
        BootTail(L, disk);
        ReadHead();
        InstallTrans(ws);
        n := 0;
        ghost var h := disk[L.start + 1];
        WriteHead([]);
        Emptied(h);
      }
    }
  }

  /** A header without entries says so. */
  lemma Emptied(h: Block)
    ensures Get32(PutHeader(h, []), 0) == 0
  {
    HeaderRoundTrip(h, []);
  }

  lemma AbsorbNone(writes: seq<Write>)
    ensures Absorb(writes[..0]) == []
  {
  }

  lemma {:induction false} AbsorbGrows(writes: seq<Write>, k: nat)
    requires k < |writes|
    ensures Absorb(writes[..k + 1]) == AbsorbOne(Absorb(writes[..k]), writes[k])
    ensures |Absorb(writes[..k])| <= |Absorb(writes)|
    decreases |writes| - k
  {
    assert writes[..k + 1][..k] == writes[..k];
    if k + 1 < |writes| {
      AbsorbGrows(writes, k + 1);
    } else {
      assert writes[..k + 1] == writes;
    }
  }

  /** A transaction with the calls `writes` leaves at home what they wrote. */
  lemma OnHome(L: Layout, d: Disk, writes: seq<Write>)
    requires |d| == L.diskSize && AllHome(L, writes) && Loggable(L, Absorb(writes))
    ensures forall b: nat :: L.Home(b) ==>
      b < |d| && Apply(d, CommitWrites(L, d, Absorb(writes)))[b] == Apply(d, writes)[b]
  {
    hide CommitWrites, Apply, Absorb;
    AbsorbKeepsEffect(L, d, writes);
    if Absorb(writes) == [] {
      NothingToCommit(L, d);
    } else {
      AfterCommit(L, d, Absorb(writes));
    }
  }

  /** With no transaction recorded no buffer is pinned. */
  lemma NothingPinned(L: Layout, n: nat, block: seq<nat>, pinned: map<nat, Block>)
    requires Recorded(L, [], n, block, pinned)
    ensures forall b: nat :: b !in pinned
  {
  }

  /** A commit puts on the disk what the pinned buffers hold. */
  lemma CommitKeepsView(L: Layout, d: Disk, txn: seq<Write>, n: nat, block: seq<nat>, pinned: map<nat, Block>)
    requires |d| == L.diskSize && Recorded(L, txn, n, block, pinned)
    ensures forall b: nat :: L.Home(b) ==>
      b < |d| && Apply(d, CommitWrites(L, d, txn))[b] == if b in pinned then pinned[b] else d[b]
  {
    hide Apply, CommitWrites;
    if txn == [] {
      NothingToCommit(L, d);
    } else {
      AfterCommit(L, d, txn);
    }
    forall b: nat | L.Home(b)
      ensures Apply(d, CommitWrites(L, d, txn))[b] == if b in pinned then pinned[b] else d[b]
    {
      if b in pinned {
        var i :| 0 <= i < |txn| && txn[i].blockno == b;
        DistinctApply(d, txn, i);
      } else if txn != [] {
        ApplyFrame(d, txn, b);
      }
    }
  }

  lemma NothingToCommit(L: Layout, d: Disk)
    requires Loggable(L, []) && |d| == L.diskSize
    ensures CommitWrites(L, d, []) == [] && Apply(d, CommitWrites(L, d, [])) == d
  {
  }

  lemma NoBytes(acc: nat, b: Block)
    requires acc < WORD
    ensures acc == (acc + Weighted(b, 0)) % WORD
  {
  }

  lemma NextByte(acc: nat, b: Block, j: nat)
    requires j < BSIZE
    ensures ((acc + Weighted(b, j)) % WORD + (j + 1) * b[j]) % WORD == (acc + Weighted(b, j + 1)) % WORD
  {
    assert Weighted(b, j + 1) == Weighted(b, j) + (j + 1) * b[j];
    hide Weighted;
    ModAdd(acc + Weighted(b, j), (j + 1) * b[j]);
  }

  lemma ModAdd(a: nat, x: nat)
    ensures (a % WORD + x) % WORD == (a + x) % WORD
  {
  }

  lemma ApplyOne(d: Disk, w: Write)
    requires w.blockno < |d|
    ensures Apply(d, [w]) == d[w.blockno := w.data]
  {
    assert [w][..0] == [];
  }

  lemma ApplyNext(d: Disk, ws: seq<Write>, k: nat)
    requires k < |ws| && ws[k].blockno < |d|
    ensures ws[..k + 1] == ws[..k] + [ws[k]]
    ensures Apply(d, ws[..k + 1]) == Apply(d, ws[..k])[ws[k].blockno := ws[k].data]
  {
    assert ws[..k + 1][..k] == ws[..k];
  }

  lemma AppendTwo(a: seq<Write>, b: seq<Write>, v: Write, w: Write)
    ensures a + b + [v] + [w] == a + (b + [v, w])
  {
  }

  lemma AppendThree(a: seq<Write>, b: seq<Write>, c: seq<Write>, w: Write)
    ensures a + b + c + [w] == a + (b + c + [w])
  {
  }

  lemma TouchesRest(ws: seq<Write>, k: nat)
    requires k < |ws|
    ensures forall b: nat :: Touches(ws[k..], b) && b != ws[k].blockno ==> Touches(ws[k + 1..], b)
  {
    forall b: nat | Touches(ws[k..], b) && b != ws[k].blockno
      ensures Touches(ws[k + 1..], b)
    {
      var i :| 0 <= i < |ws[k..]| && ws[k..][i].blockno == b;
      assert ws[k + 1..][i - 1] == ws[k..][i];
    }
  }

  lemma SlotIs(txn: seq<Write>, b: nat, i: nat)
    requires i <= |txn| && (i < |txn| ==> txn[i].blockno == b)
    requires forall j :: 0 <= j < i ==> txn[j].blockno != b
    ensures Slot(txn, b) == i
  {
  }

  /** One log_write, given the slot its scan stopped at. */
  lemma RecordOne(L: Layout, txn: seq<Write>, n: nat, block: seq<nat>, pinned: map<nat, Block>, w: Write, i: nat)
    requires Recorded(L, txn, n, block, pinned) && n < L.size - 2 && L.Home(w.blockno)
    requires i <= n && (i < n ==> block[i] == w.blockno) && forall j :: 0 <= j < i ==> block[j] != w.blockno
    ensures Recorded(L, AbsorbOne(txn, w), if i == n then n + 1 else n, block[i := w.blockno],
      pinned[w.blockno := w.data])
  {
    assert forall j :: 0 <= j < i ==> txn[j].blockno == block[j];
    SlotIs(txn, w.blockno, i);
    var t := AbsorbOne(txn, w);
    forall b: nat | b in pinned[w.blockno := w.data]
      ensures Touches(t, b)
    {
      if b == w.blockno {
        assert t[i].blockno == b;
      } else {
        var j :| 0 <= j < |txn| && txn[j].blockno == b;
        assert t[j].blockno == b;
      }
    }
  }

  /** The last n + 1 writes of a commit: `c` is the disk at the commit point. */
  lemma CommitTail(L: Layout, d: Disk, c: Disk, txn: seq<Write>)
    requires Loggable(L, txn) && |d| == L.diskSize && txn != []
    requires c == Apply(d, CommitWrites(L, d, txn)[..|txn| + 2]) && Installing(L, d, txn, 0, c)
    ensures var ws, e := CommitWrites(L, d, txn), Apply(c, txn);
      var h := PutHeader(e[L.start + 1], []);
      && ws == ws[..|txn| + 2] + txn + [Write(L.start + 1, h)]
      && Apply(d, ws) == e[L.start + 1 := h]
  {
    hide Apply, PutHeader, Checksum;
    var ws := CommitWrites(L, d, txn);
    var last := Write(L.start + 1, PutHeader(PutHeader(d[L.start + 1], txn), []));
    InstallMore(L, d, txn, |txn|, c);
    assert txn[..|txn|] == txn;
    assert ws == ws[..|txn| + 2] + txn + [last];
    ApplyAppend(d, ws[..|txn| + 2], txn);
    ApplyAppend(d, ws[..|txn| + 2] + txn, [last]);
    ApplyOne(Apply(c, txn), last);
  }

  /** A recovery that passes the gate. */
  lemma BootTail(L: Layout, d: Disk)
    requires ValidHeader(L, d) && GatePasses(L, d)
    ensures var ws, e := DiskTxn(L, d), Apply(d, DiskTxn(L, d));
      var h := PutHeader(e[L.start + 1], []);
      BootWrites(L, d) == ws + [Write(L.start + 1, h)] && Apply(d, BootWrites(L, d)) == e[L.start + 1 := h]
  {
    hide Apply, PutHeader;
    var ws, last := DiskTxn(L, d), Write(L.start + 1, PutHeader(d[L.start + 1], []));
    LogAreaFrame(L, d, ws, |ws|);
    assert ws[..|ws|] == ws;
    ApplyAppend(d, ws, [last]);
    ApplyOne(Apply(d, ws), last);
  }

  /** What write_checksum and write_head do to the disk `c` that write_log leaves. */
  lemma AheadWrites(L: Layout, c: Disk, d: Disk, txn: seq<Write>)
    requires Loggable(L, txn) && |d| == L.diskSize && txn != [] && c == Apply(d, LogWrites(L, txn))
    ensures var sum := Put32(c[L.start], 0, BlockSums(c[L.start + 1..L.start + 1 + |txn|]) % BSIZE);
      var h := PutHeader(c[L.start + 1], txn);
      && CommitWrites(L, d, txn)[..|txn| + 2] == LogWrites(L, txn) + [Write(L.start, sum), Write(L.start + 1, h)]
      && Apply(d, CommitWrites(L, d, txn)[..|txn| + 2]) == c[L.start := sum][L.start + 1 := h]
  {
    hide Apply, CommitWrites, PutHeader, Put32, BlockSums;
    SumCoversHeader(L, d, txn);
    CommitHead(L, d, txn);
    LogWritesDone(L, d, txn);
    TwoMoreWrites(d, LogWrites(L, txn), Write(L.start, Put32(d[L.start], 0, Checksum(L, d, txn))),
      Write(L.start + 1, PutHeader(d[L.start + 1], txn)));
  }

  lemma SummedAt(L: Layout, d: Disk, txn: seq<Write>, i: nat)
    requires Loggable(L, txn) && |d| == L.diskSize && i < |txn|
    ensures Summed(L, d, txn)[i] == if i == 0 then d[L.start + 1] else txn[i - 1].data
  {
  }

  /** Once the log blocks are written, blocks start+1 .. start+n are the old header and all
      logged blocks but the last. */
  lemma SumCoversHeader(L: Layout, d: Disk, txn: seq<Write>)
    requires Loggable(L, txn) && |d| == L.diskSize && txn != []
    ensures Apply(d, LogWrites(L, txn))[L.start + 1..L.start + 1 + |txn|] == Summed(L, d, txn)
  {
    hide Apply, LogWrites, Summed;
    var c := Apply(d, LogWrites(L, txn));
    assert LogWrites(L, txn)[..|txn|] == LogWrites(L, txn);
    AfterLogWrites(L, d, txn, |txn|);
    forall i | 0 <= i < |txn|
      ensures c[L.start + 1 + i] == Summed(L, d, txn)[i]
    {
      SummedAt(L, d, txn, i);
    }
  }
}
