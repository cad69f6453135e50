/** The inode layer as the kernel runs it: the free map, the block contents seen through the
    buffer cache, the in-memory inodes and their on-disk copies, changed step by step. */
module FileSystem {
  import opened Blocks
  import opened Bitmap
  import opened Inodes
  import opened Wrappers

  /** What a write reports: the count it returns, -1, or the panic for want of blocks. */
  datatype Outcome = Wrote(count: nat) | Refused | OutOfBlocks

  /** What a read reports: the bytes, -1, or the panic for want of blocks, which a hole can need. */
  datatype ReadOutcome = Bytes(data: seq<byte>) | BadRange | NoBlock

  /** The bytes of `blk` with `piece` copied in at offset o. */
  function Patch(blk: Block, o: nat, piece: seq<byte>): Block
    requires o + |piece| <= BSIZE
  {
    blk[..o] + piece + blk[o + |piece|..]
  }

  /** Only the block addresses of inode i may differ. */
  predicate OnlyAddrs(inodes: seq<Inode>, inodes': seq<Inode>, i: nat) {
    && i < |inodes| == |inodes'|
    && inodes' == inodes[i := inodes[i].(addrs := inodes'[i].addrs)]
  }

  /** The indirect block of an inode, if it has one. */
  function Indirect(ip: Inode): (s: set<nat>)
    requires |ip.addrs| == NDIRECT + 1
    ensures |s| <= 1
  {
    if ip.addrs[NDIRECT] == 0 then {} else {ip.addrs[NDIRECT]}
  }

  /** The files of all inodes but i read as before. */
  ghost predicate OthersKept(b0: seq<Block>, i0: seq<Inode>, b1: seq<Block>, i1: seq<Inode>, i: nat) {
    && |i0| == |i1|
    && (forall j :: 0 <= j < |i0| ==> WellFormed(b0, i0[j]) && WellFormed(b1, i1[j]))
    && (forall j, m :: 0 <= j < |i0| && j != i && 0 <= m < MAXFILE ==> FileData(b1, i1[j], m) == FileData(b0, i0[j], m))
  }

  /** The file's bytes are as before, with `piece` at offset off. */
  ghost predicate Patched(b0: seq<Block>, ip0: Inode, b1: seq<Block>, ip1: Inode, off: nat, piece: seq<byte>) {
    && WellFormed(b0, ip0) && WellFormed(b1, ip1)
    && (forall p :: 0 <= p < MAXFILE * BSIZE ==>
         ByteAt(b1, ip1, p) == if off <= p < off + |piece| then piece[p - off] else ByteAt(b0, ip0, p))
  }

  predicate AllSized(blocks: seq<Block>, inodes: seq<Inode>) {
    forall j :: 0 <= j < |inodes| ==> Sized(blocks, inodes[j])
  }

  /** Files without holes stay so. */
  ghost predicate WholeKept(b0: seq<Block>, i0: seq<Inode>, b1: seq<Block>, i1: seq<Inode>) {
    |i0| == |i1| && forall j :: 0 <= j < |i0| && NoHoles(b0, i0[j]) ==> NoHoles(b1, i1[j])
  }

  /** File block bn has the address that the inode itself must hold for it: its own, or that of the
      indirect block. */
  predicate AddrPresent(ip: Inode, bn: nat)
    requires |ip.addrs| == NDIRECT + 1
  {
    if bn < NDIRECT then ip.addrs[bn] != 0 else ip.addrs[NDIRECT] != 0
  }

  /** File block bn holds some of the n bytes at offset off. */
  predicate InRange(off: nat, n: nat, bn: nat) {
    n > 0 && off / BSIZE <= bn <= (off + n - 1) / BSIZE
  }

  ghost predicate AddrsPresent(ip: Inode, off: nat, n: nat)
    requires |ip.addrs| == NDIRECT + 1
  {
    forall bn: nat :: InRange(off, n, bn) ==> AddrPresent(ip, bn)
  }

  /** Some of the n bytes at offset off have no block. */
  ghost predicate MeetsHole(blocks: seq<Block>, ip: Inode, off: nat, n: nat)
    requires WellFormed(blocks, ip)
  {
    exists bn: nat :: bn < MAXFILE && InRange(off, n, bn) && FileBlock(blocks, ip, bn) == 0
  }

  /** Two of the blocks that hold them are missing. */
  ghost predicate TwoHoles(blocks: seq<Block>, ip: Inode, off: nat, n: nat)
    requires WellFormed(blocks, ip)
  {
    exists a: nat, b: nat :: a < b < MAXFILE && HoleAt(blocks, ip, off, n, a) && HoleAt(blocks, ip, off, n, b)
  }

  predicate HoleAt(blocks: seq<Block>, ip: Inode, off: nat, n: nat, bn: nat)
    requires WellFormed(blocks, ip) && bn < MAXFILE
  {
    InRange(off, n, bn) && FileBlock(blocks, ip, bn) == 0
  }

  /** An address that is set stays. */
  predicate Grows(a: seq<nat>, b: seq<nat>) {
    |a| == |b| && forall k :: 0 <= k < |a| && a[k] != 0 ==> b[k] == a[k]
  }

  ghost predicate OwnerGrows(o: map<nat, Slot>, p: map<nat, Slot>) {
    forall b :: b in o ==> b in p && p[b] == o[b]
  }

  /** Inode i may have taken blocks, and no file reads differently. */
  ghost predicate Grown(b0: seq<Block>, i0: seq<Inode>, o0: map<nat, Slot>, b1: seq<Block>, i1: seq<Inode>,
      o1: map<nat, Slot>, i: nat) {
    && OnlyAddrs(i0, i1, i) && |i0[i].addrs| == NDIRECT + 1 && Grows(i0[i].addrs, i1[i].addrs)
    && SameData(b0, i0, b1, i1) && KeepsBlocks(b0, i0, b1, i1) && OwnerGrows(o0, o1)
  }

  lemma GrownNot(g: Geometry, bm: seq<Block>, blocks: seq<Block>, inodes: seq<Inode>, owner: map<nat, Slot>, i: nat)
    requires Owned(g, bm, blocks, inodes, owner) && i < |inodes|
    ensures Grown(blocks, inodes, owner, blocks, inodes, owner, i)
  {
  }

  lemma GrownAddrs(b0: seq<Block>, i0: seq<Inode>, o0: map<nat, Slot>, b1: seq<Block>, i1: seq<Inode>,
      o1: map<nat, Slot>, i: nat)
    requires Grown(b0, i0, o0, b1, i1, o1, i)
    ensures i < |i0| == |i1| && |i0[i].addrs| == NDIRECT + 1 && Grows(i0[i].addrs, i1[i].addrs)
    ensures i1[i] == i0[i].(addrs := i1[i].addrs)
  {
  }

  lemma GrownTwice(b0: seq<Block>, i0: seq<Inode>, o0: map<nat, Slot>, b1: seq<Block>, i1: seq<Inode>,
      o1: map<nat, Slot>,
      b2: seq<Block>, i2: seq<Inode>, o2: map<nat, Slot>, i: nat)
    requires Grown(b0, i0, o0, b1, i1, o1, i) && Grown(b1, i1, o1, b2, i2, o2, i)
    ensures Grown(b0, i0, o0, b2, i2, o2, i)
    ensures o2.Keys == o0.Keys ==> o1.Keys == o0.Keys
    ensures forall x :: x !in o1 ==> x !in o0
    ensures forall x :: x in o2 && x !in o1 ==> o2.Keys != o0.Keys
  {
    hide FileBlock, FileData;
  }

  /** The inodes on disk are those in memory, but perhaps for addresses. */
  ghost predicate Shadow(dinodes: seq<Inode>, icache: seq<Inode>) {
    |dinodes| == |icache| && forall j :: 0 <= j < |icache| ==> dinodes[j] == icache[j].(addrs := dinodes[j].addrs)
  }

  /** Every inode's file as a byte string. */
  function FilesOf(blocks: seq<Block>, inodes: seq<Inode>): (fs: seq<seq<byte>>)
    requires AllSized(blocks, inodes)
    ensures |fs| == |inodes|
  {
    seq(|inodes|, j requires 0 <= j < |inodes| => Content(blocks, inodes[j]))
  }

  /** No block is free. */
  ghost predicate Full(g: Geometry, bm: seq<Block>)
    requires g.Valid() && |bm| == g.nbitmap
  {
    forall c: nat :: c < g.size ==> InUse(bm, c)
  }

  /** What the disk holds, as the buffer cache has it, and the blocks passed to log_write so far. */
  datatype Stored = Stored(bm: seq<Block>, blocks: seq<Block>, dinodes: seq<Inode>, logged: set<nat>)

  /** Whatever differs on the disk from s to t has been passed to log_write: the data and indirect blocks, the
      blocks of the free map and the blocks of inodes. */
  ghost predicate LogCovers(g: Geometry, s: Stored, t: Stored) {
    && s.logged <= t.logged
    && |t.bm| == |s.bm| && |t.blocks| == |s.blocks| && |t.dinodes| == |s.dinodes|
    && (forall b :: 0 <= b < |s.blocks| && t.blocks[b] != s.blocks[b] ==> b in t.logged)
    && (forall k :: 0 <= k < |s.bm| && t.bm[k] != s.bm[k] ==> g.bmapstart + k in t.logged)
    && (forall i :: 0 <= i < |s.dinodes| && t.dinodes[i] != s.dinodes[i] ==> g.inodestart + i / IPB in t.logged)
  }

  lemma LogCoversNothing(g: Geometry, s: Stored)
    ensures LogCovers(g, s, s)
  {
  }

  lemma LogCoversWrite(g: Geometry, s: Stored, t: Stored, b: nat, blk: Block)
    requires LogCovers(g, s, t) && b < |t.blocks|
    ensures LogCovers(g, s, t.(blocks := t.blocks[b := blk], logged := t.logged + {b}))
  {
  }

  /** Two transactions in a row: all that changed is in what one or the other logged. */
  lemma LogCoversBoth(g: Geometry, s: Stored, t: Stored, u: Stored)
    requires LogCovers(g, s, t) && LogCovers(g, t.(logged := {}), u)
    ensures LogCovers(g, s, u.(logged := t.logged + u.logged))
  {
  }

  lemma LogCoversTwice(g: Geometry, s: Stored, t: Stored, u: Stored)
    requires LogCovers(g, s, t) && LogCovers(g, t, u)
    ensures LogCovers(g, s, u)
  {
  }

  class Fs {
    const g: Geometry
    var bm: seq<Block>
    var blocks: seq<Block>
    var icache: seq<Inode>
    var dinodes: seq<Inode>
    /** The slot that holds each data block in use. */
    ghost var owner: map<nat, Slot>
    /** The blocks passed to log_write by the operation in progress. */
    ghost var logged: set<nat>

    ghost predicate Own()
      reads this
    {
      Owned(g, bm, blocks, icache, owner)
    }

    /** Out of blocks. */
    ghost predicate Exhausted()
      reads this
    {
      g.Valid() && |bm| == g.nbitmap && Full(g, bm)
    }

    ghost predicate Valid()
      reads this
    {
      Own() && AllSized(blocks, icache) && Shadow(dinodes, icache)
    }

    ghost function Now(): Stored
      reads this
    {
      Stored(bm, blocks, dinodes, logged)
    }

    /** The inode on disk is the one in memory. */
    ghost predicate Synced(i: nat)
      requires i < |icache| && i < |dinodes|
      reads this
    {
      dinodes[i] == icache[i]
    }

    /** The file system on a disk: nothing of it changed in memory yet. */
    constructor (geometry: Geometry, map0: seq<Block>, disk: seq<Block>, inodes: seq<Inode>,
        ghost owner0: map<nat, Slot>)
      requires Owned(geometry, map0, disk, inodes, owner0) && AllSized(disk, inodes)
      ensures Valid() && g == geometry && |icache| == |inodes| && Files() == FilesOf(disk, inodes)
      ensures forall i :: 0 <= i < |inodes| ==> Synced(i) && icache[i] == inodes[i]
      ensures blocks == disk && bm == map0
    {
      g, bm, blocks, icache, dinodes := geometry, map0, disk, inodes, inodes;
      owner, logged := owner0, {};
    }

    /** balloc: the lowest free block, marked in use and zeroed; None stands for the panic. */
    method Balloc() returns (r: Option<nat>)
      requires Own()
      modifies this`bm, this`blocks, this`logged
      ensures r.None? ==> unchanged(this) && Exhausted()
      ensures r.Some? ==> g.nmeta <= r.value < g.size && !InUse(old(bm), r.value)
      ensures r.Some? ==> forall c: nat :: c < r.value ==> InUse(old(bm), c)
      ensures r.Some? ==> bm == Mark(old(bm), r.value) && blocks == old(blocks)[r.value := ZeroBlock()]
      ensures r.Some? ==> logged == old(logged) + {g.bmapstart + r.value / BPB, r.value}
      ensures LogCovers(g, old(Now()), Now())
    {
      var b := 0;
      while b < g.size
        invariant b % BPB == 0
        invariant unchanged(this)
        invariant forall c: nat :: c < b && c < g.size ==> InUse(bm, c)
      {
        var bi := 0;
        while bi < BPB && b + bi < g.size
          invariant 0 <= bi <= BPB
          invariant unchanged(this)
          invariant forall c: nat :: c < b + bi && c < g.size ==> InUse(bm, c)
        {
          BitOf(b, bi);
          if !Bit(bm[b / BPB][bi / 8], bi % 8) {
            assert !InUse(bm, b + bi);
            ByteBounds(bm[b / BPB][bi / 8], bi % 8);
            bm := bm[b / BPB := bm[b / BPB][bi / 8 := WithBit(bm[b / BPB][bi / 8], bi % 8)]];
            blocks := blocks[b + bi := ZeroBlock()];
            logged := logged + {g.bmapstart + (b + bi) / BPB, b + bi};
            return Some(b + bi);
          }
          bi := bi + 1;
        }
        b := b + BPB;
      }
      return None;
    }

    /** bfree; `ok` is false where the code panics because the block is free already. */
    method Bfree(b: nat) returns (ok: bool)
      requires g.Valid() && |bm| == g.nbitmap && b < g.size
      modifies this`bm, this`logged
      ensures ok <==> InUse(old(bm), b)
      ensures bm == if ok then Clear(old(bm), b) else old(bm)
      ensures logged == if ok then old(logged) + {g.bmapstart + b / BPB} else old(logged)
      ensures LogCovers(g, old(Now()), Now())
    {
      var bi := b % BPB;
      if !Bit(bm[b / BPB][bi / 8], bi % 8) {
        return false;
      }
      ByteBounds(bm[b / BPB][bi / 8], bi % 8);
      bm := bm[b / BPB := bm[b / BPB][bi / 8 := WithoutBit(bm[b / BPB][bi / 8], bi % 8)]];
      logged := logged + {g.bmapstart + b / BPB};
      return true;
    }

    method Iupdate(i: nat)
      requires i < |icache| == |dinodes|
      modifies this`dinodes, this`logged
      ensures dinodes == old(dinodes)[i := icache[i]]
      ensures logged == old(logged) + {g.inodestart + i / IPB}
      ensures LogCovers(g, old(Now()), Now())
    {
      dinodes := dinodes[i := icache[i]];
      logged := logged + {g.inodestart + i / IPB};
    }

    /** Allocates a block into addrs[k]. */
    method GrowAddr(i: nat, k: nat) returns (r: Option<nat>)
      requires Own() && i < |icache| && k <= NDIRECT && icache[i].addrs[k] == 0
      modifies this`bm, this`blocks, this`icache, this`owner, this`logged
      ensures r.None? ==> Exhausted() && unchanged(this)
      ensures r.Some? ==> Own() && r.value != 0 && r.value < g.size && icache == SetAddr(old(icache), i, k, r.value)
      ensures r.Some? ==> Grown(old(blocks), old(icache), old(owner), blocks, icache, owner, i)
      ensures r.Some? ==> r.value in owner && r.value !in old(owner)
      ensures r.Some? ==> r.value < |blocks| && blocks[r.value] == ZeroBlock()
      ensures r.Some? ==> logged == old(logged) + {g.bmapstart + r.value / BPB, r.value}
      ensures LogCovers(g, old(Now()), Now())
    {
      r := Balloc();
      if r.Some? {
        NotYetOwned(g, old(bm), old(blocks), icache, owner, r.value);
        GrowDirect(g, old(bm), old(blocks), icache, owner, i, k, r.value);
        hide SameData, KeepsBlocks, InUse, SlotsOwn, MapExact, OwnersHold, Mark, LogCovers;
        icache := icache[i := icache[i].(addrs := icache[i].addrs[k := r.value])];
        owner := owner[r.value := Direct(i, k)];
      }
    }

    /** Allocates a block into entry k of the indirect block. */
    method GrowIndirect(i: nat, k: nat) returns (r: Option<nat>)
      requires Own() && i < |icache| && k < NINDIRECT && icache[i].addrs[NDIRECT] != 0
      requires IndirectEntry(blocks, icache[i], k) == 0
      modifies this`bm, this`blocks, this`owner, this`logged
      ensures r.None? ==> Exhausted()
      ensures r.Some? ==> Own() && r.value != 0 && r.value < g.size && IndirectEntry(blocks, icache[i], k) == r.value
      ensures r.Some? ==> Grown(old(blocks), icache, old(owner), blocks, icache, owner, i)
      ensures r.Some? ==> r.value in owner && r.value !in old(owner)
      ensures r.Some? ==> logged == old(logged) + {g.bmapstart + r.value / BPB, r.value, icache[i].addrs[NDIRECT]}
      ensures LogCovers(g, old(Now()), Now())
    {
      var a := icache[i].addrs[NDIRECT];
      r := Balloc();
      if r.Some? {
        EntryGrown(g, old(bm), old(blocks), icache, owner, i, k, r.value);
        hide Owned, Grown, InUse, Mark, Get32, Put32, IndirectEntry, LogCovers;
        LogCoversWrite(g, old(Now()), Now(), a, Put32(blocks[a], 4 * k, r.value));
        blocks := blocks[a := Put32(blocks[a], 4 * k, r.value)];
        owner := owner[r.value := Entry(i, k)];
        logged := logged + {a};
      }
    }

    /** The part of bmap that reads or fills an entry of the indirect block. */
    method BmapEntry(i: nat, k: nat) returns (r: Option<nat>, ghost bits: set<nat>)
      requires Own() && i < |icache| && k < NINDIRECT && icache[i].addrs[NDIRECT] != 0
      modifies this`bm, this`blocks, this`owner, this`logged
      ensures r.None? ==> Exhausted()
      ensures r.Some? ==> Own() && r.value != 0 && r.value < g.size && IndirectEntry(blocks, icache[i], k) == r.value
      ensures r.Some? ==> Grown(old(blocks), icache, old(owner), blocks, icache, owner, i)
      ensures r.Some? && IndirectEntry(old(blocks), icache[i], k) == 0 ==> r.value in owner && r.value !in old(owner)
      ensures IndirectEntry(old(blocks), icache[i], k) != 0 ==> unchanged(this) && r.Some? && bits == {}
      ensures r.Some? ==> logged <= old(logged) + bits + {r.value, icache[i].addrs[NDIRECT]}
      ensures |bits| <= 1 && forall x :: x in bits ==> g.bmapstart <= x < g.bmapstart + g.nbitmap
      ensures LogCovers(g, old(Now()), Now())
    {
      GrownNot(g, bm, blocks, icache, owner, i);
      LogCoversNothing(g, Now());
      hide Grown, InUse, Get32, SlotsOwn, MapExact, OwnersHold, LogCovers;
      SlotsInRange(g, bm, blocks, icache, owner, i);
      bits := {};
      var addr := IndirectEntry(blocks, icache[i], k);
      if addr == 0 {
        r := GrowIndirect(i, k);
        if r.Some? {
          BitmapBlock(g, r.value);
          bits := {g.bmapstart + r.value / BPB};
        }
      } else {
        r := Some(addr);
      }
    }

    /** The part of bmap that reads or fills addrs[k]. */
    method BmapAddr(i: nat, k: nat) returns (r: Option<nat>, ghost bits: set<nat>)
      requires Own() && i < |icache| && k <= NDIRECT
      modifies this`bm, this`blocks, this`icache, this`owner, this`logged
      ensures r.None? ==> Exhausted() && unchanged(this)
      ensures r.Some? ==> Own() && r.value != 0 && r.value < g.size
      ensures r.Some? ==> icache == SetAddr(old(icache), i, k, r.value)
      ensures r.Some? ==> Grown(old(blocks), old(icache), old(owner), blocks, icache, owner, i)
      ensures r.Some? && old(icache)[i].addrs[k] == 0 ==> r.value in owner && r.value !in old(owner)
      ensures r.Some? && old(icache)[i].addrs[k] == 0 ==> r.value < |blocks| && blocks[r.value] == ZeroBlock()
      ensures old(icache)[i].addrs[k] != 0 ==> unchanged(this) && r.Some? && bits == {}
      ensures r.Some? ==> logged <= old(logged) + bits + {r.value}
      ensures |bits| <= 1 && forall x :: x in bits ==> g.bmapstart <= x < g.bmapstart + g.nbitmap
      ensures LogCovers(g, old(Now()), Now())
    {
      GrownNot(g, bm, blocks, icache, owner, i);
      LogCoversNothing(g, Now());
      hide Grown, InUse, Get32, SlotsOwn, MapExact, OwnersHold, LogCovers;
      bits := {};
      var addr := icache[i].addrs[k];
      if addr == 0 {
        r := GrowAddr(i, k);
        if r.Some? {
          BitmapBlock(g, r.value);
          bits := {g.bmapstart + r.value / BPB};
        }
      } else {
        r := Some(addr);
        assert icache[i].addrs[k := addr] == icache[i].addrs;
      }
    }

    /** The part of bmap for blocks past the direct ones. */
    method BmapIndirect(i: nat, k: nat) returns (r: Option<nat>, ghost bits: set<nat>)
      requires Own() && i < |icache| && k < NINDIRECT
      modifies this`bm, this`blocks, this`icache, this`owner, this`logged
      ensures r.None? ==> Exhausted()
      ensures r.Some? ==>
        Own() && Grown(old(blocks), old(icache), old(owner), blocks, icache, owner, i) && |icache| == |old(icache)|
      ensures r.Some? ==> r.value != 0 && r.value < g.size && IndirectEntry(blocks, icache[i], k) == r.value
      ensures IndirectEntry(old(blocks), old(icache)[i], k) != 0 ==> unchanged(this) && r.Some? && bits == {}
      ensures r.Some? && IndirectEntry(old(blocks), old(icache)[i], k) == 0 ==>
        r.value in owner && r.value !in old(owner)
      ensures r.Some? ==> (icache[i].addrs == old(icache)[i].addrs <==> old(icache)[i].addrs[NDIRECT] != 0)
      ensures r.Some? ==>
        icache[i].addrs[NDIRECT] != 0 && (old(icache)[i].addrs[NDIRECT] != 0 ==> icache == old(icache))
      ensures r.Some? ==> logged <= old(logged) + bits + {r.value, icache[i].addrs[NDIRECT]}
      ensures r.Some? ==> |bits| <= if old(icache)[i].addrs[NDIRECT] == 0 then 2 else 1
      ensures r.Some? ==> forall x :: x in bits ==> g.bmapstart <= x < g.bmapstart + g.nbitmap
      ensures LogCovers(g, old(Now()), Now())
    {
      hide Grown, InUse, Get32, SlotsOwn, MapExact, OwnersHold, LogCovers;
      r, bits := BmapAddr(i, NDIRECT);
      if r.Some? {
        ghost var b1, i1, o1, first := blocks, icache, owner, bits;
        NewIndirect(old(blocks), old(icache)[i], b1, i1[i], k);
        ghost var n1 := Now();
        r, bits := BmapEntry(i, k);
        LogCoversTwice(g, old(Now()), n1, Now());
        if r.Some? {
          GrownTwice(old(blocks), old(icache), old(owner), b1, i1, o1, blocks, icache, owner, i);
          UnionSize(first, bits);
          bits := first + bits;
        }
      }
    }

    /** bmap: the address of file block bn, allocated if the file has none. Allocation shows in
        no file's contents, and nothing at all changes when the block was there. `bits` are
        the bitmap blocks logged. */
    method Bmap(i: nat, bn: nat) returns (r: Option<nat>, ghost bits: set<nat>)
      requires Own() && i < |icache| && bn < MAXFILE
      modifies this`bm, this`blocks, this`icache, this`owner, this`logged
      ensures r.None? ==> Exhausted() && (bn < NDIRECT ==> unchanged(this))
      ensures r.Some? ==>
        Own() && Grown(old(blocks), old(icache), old(owner), blocks, icache, owner, i) && |icache| == |old(icache)|
      ensures r.Some? ==> r.value != 0 && r.value < g.size == |blocks| && FileBlock(blocks, icache[i], bn) == r.value
      ensures r.Some? ==>
        if bn < NDIRECT then icache[i].addrs[bn] == r.value
        else
          var a := icache[i].addrs[NDIRECT];
          0 < a < |blocks| && Get32(blocks[a], 4 * (bn - NDIRECT)) == r.value
      ensures FileBlock(old(blocks), old(icache)[i], bn) != 0 ==> unchanged(this) && r.Some? && bits == {}
      ensures r.Some? && FileBlock(old(blocks), old(icache)[i], bn) == 0 ==> r.value in owner && r.value !in old(owner)
      ensures r.Some? ==> (icache[i].addrs == old(icache)[i].addrs <==> AddrPresent(old(icache)[i], bn))
      ensures r.Some? ==> Indirect(old(icache)[i]) <= Indirect(icache[i])
      ensures r.Some? ==> logged <= old(logged) + bits + {r.value} + Indirect(icache[i])
      ensures r.Some? ==> |bits| <= 1 + |Indirect(icache[i])| - |Indirect(old(icache)[i])|
      ensures r.Some? ==> forall x :: x in bits ==> g.bmapstart <= x < g.bmapstart + g.nbitmap
      ensures LogCovers(g, old(Now()), Now())
    {
      hide Grown, InUse, Get32, SlotsOwn, MapExact, OwnersHold, LogCovers;
      if bn < NDIRECT {
        r, bits := BmapAddr(i, bn);
      } else {
        r, bits := BmapIndirect(i, bn - NDIRECT);
      }
    }

    /** One turn of writei's loop: a piece that stays inside one block. */
    method WriteChunk(i: nat, off: nat, piece: seq<byte>) returns (ok: bool, ghost bits: set<nat>, ghost addr: nat)
      requires Own() && i < |icache| && off / BSIZE < MAXFILE && off % BSIZE + |piece| <= BSIZE
      modifies this`bm, this`blocks, this`icache, this`owner, this`logged
      ensures !ok ==> Exhausted()
      ensures ok ==> Own() && ChunkStep(old(blocks), old(icache), blocks, icache, i, off, piece)
      ensures ok ==> |icache| == |old(icache)| && |icache[i].addrs| == NDIRECT + 1
      ensures FileBlock(old(blocks), old(icache)[i], off / BSIZE) != 0 ==>
        ok && icache == old(icache) && bm == old(bm) && owner == old(owner) && bits == {}
      ensures ok ==> |old(icache)[i].addrs| == NDIRECT + 1 && Grows(old(icache)[i].addrs, icache[i].addrs)
      ensures ok ==> (icache[i].addrs == old(icache)[i].addrs <==> AddrPresent(old(icache)[i], off / BSIZE))
      ensures ok ==> Indirect(old(icache)[i]) <= Indirect(icache[i])
      ensures ok ==> logged <= old(logged) + bits + {addr} + Indirect(icache[i])
      ensures ok ==> |bits| <= 1 + |Indirect(icache[i])| - |Indirect(old(icache)[i])|
      ensures ok ==> forall x :: x in bits ==> g.bmapstart <= x < g.bmapstart + g.nbitmap
      ensures LogCovers(g, old(Now()), Now())
    {
      hide SameData, KeepsBlocks, Owned, Patched, OthersKept, FileBlock, FileData, Patch, OwnerGrows, LogCovers;
      var r;
      r, bits := Bmap(i, off / BSIZE);
      addr := if r.Some? then r.value else 0;
      if r.None? {
        return false, bits, 0;
      }
      ghost var b1, n1 := blocks, Now();
      WriteData(g, bm, blocks, icache, owner, i, off / BSIZE, Patch(blocks[r.value], off % BSIZE, piece));
      blocks := blocks[r.value := Patch(blocks[r.value], off % BSIZE, piece)];
      logged := logged + {r.value};
      LogCoversWrite(g, old(Now()), n1, r.value, Patch(b1[r.value], off % BSIZE, piece));
      AfterChunk(old(blocks), old(icache), b1, blocks, icache, i, off, piece);
      ok := true;
    }

    ghost function Files(): (fs: seq<seq<byte>>)
      reads this
      requires Valid()
      ensures |fs| == |icache|
    {
      FilesOf(blocks, icache)
    }

    /** writei's loop, once the bounds have been checked. */
    method WriteBytes(i: nat, src: seq<byte>, off: nat) returns (ok: bool, ghost data: set<nat>, ghost bits: set<nat>)
      requires Own() && AllSized(blocks, icache) && i < |icache|
      requires off <= icache[i].size && off + |src| <= MAXFILE * BSIZE
      modifies this`bm, this`blocks, this`icache, this`owner, this`logged
      ensures !ok ==> Exhausted()
      ensures ok ==> Own() && Progress(old(blocks), old(icache), blocks, icache, i, off, src, |src|)
      ensures ok ==> |icache| == |old(icache)|
      ensures ok ==>
        Account(g, NoHoles(old(blocks), old(icache)[i]), old(icache)[i], icache[i], off, |src|, old(logged), logged,
        data, bits)
      ensures LogCovers(g, old(Now()), Now())
    {
      hide Progress, Account, Owned, NoHoles, FileBlock, ChunkStep, Indirect, WellFormed, AllSized, Grows, AddrPresent,
        LogCovers;
      ghost var whole := NoHoles(blocks, icache[i]);
      data, bits := {}, {};
      var n, tot := |src|, 0;
      ProgressStart(g, bm, blocks, icache, owner, i, off, src);
      AccountStart(g, whole, icache[i], off, logged);
      LogCoversNothing(g, Now());
      while tot < n
        invariant 0 <= tot <= n && (tot == 0 || tot == n || (off + tot) % BSIZE == 0)
        invariant Own() && |icache| == |old(icache)|
        invariant Progress(old(blocks), old(icache), blocks, icache, i, off, src, tot)
        invariant Account(g, whole, old(icache)[i], icache[i], off, tot, old(logged), logged, data, bits)
        invariant LogCovers(g, old(Now()), Now())
      {
        var m := Least(n - tot, BSIZE - (off + tot) % BSIZE);
        ChunkEnd(off + tot, m);
        ghost var b1, i1, l1, n1 := blocks, icache, logged, Now();
        ProgressAhead(old(blocks), old(icache), b1, i1, i, off, src, tot, m);
        ghost var more, addr;
        ok, more, addr := WriteChunk(i, off + tot, src[tot..tot + m]);
        LogCoversTwice(g, old(Now()), n1, Now());
        if !ok {
          return;
        }
        ProgressNext(old(blocks), old(icache), b1, i1, blocks, icache, i, off, src, tot, m);
        AccountNext(g, whole, old(icache)[i], i1[i], icache[i], off, tot, m, old(logged), l1, logged, data, bits,
          addr, more);
        data, bits := data + {addr}, bits + more;
        tot := tot + m;
      }
      ok := true;
    }

    /** writei. It refuses exactly a start past the end of the file and an end past the largest
        file (an offset that overflows 32 bits is both); otherwise it splices the bytes in and leaves every
        other file alone. It copies the inode to disk only when the file has grown, so the inode on disk is
        still the cached one exactly when the file grew or no address was missing. `data` and `bits` are the
        file blocks and the bitmap blocks it logs; besides them it logs the indirect block and the inode. */
    method Writei(i: nat, src: seq<byte>, off: nat) returns (out: Outcome, ghost data: set<nat>, ghost bits: set<nat>)
      requires Valid() && i < |icache| && off < WORD && |src| < WORD
      modifies this`bm, this`blocks, this`icache, this`dinodes, this`owner, this`logged
      ensures out.OutOfBlocks? ==> Exhausted()
      ensures out.Refused? <==> off > old(icache)[i].size || off + |src| > MAXFILE * BSIZE
      ensures out.Refused? ==> unchanged(this)
      ensures out.Wrote? ==> Valid() && out.count == |src|
      ensures out.Wrote? ==> Files() == old(Files())[i := Splice(old(Files())[i], off, src)]
      ensures out.Wrote? ==> |icache| == |old(icache)| && WholeKept(old(blocks), old(icache), blocks, icache)
      ensures out.Wrote? ==> icache[i].kind == old(icache)[i].kind && icache[i].nlink == old(icache)[i].nlink
      ensures out.Wrote? ==> forall j :: 0 <= j < |icache| && j != i ==>
        icache[j] == old(icache)[j] && dinodes[j] == old(dinodes)[j]
      ensures out.Wrote? && old(Synced(i)) ==>
        (Synced(i) <==> off + |src| > old(icache)[i].size || AddrsPresent(old(icache)[i], off, |src|))
      ensures out.Wrote? ==> logged <= old(logged) + data + bits + Indirect(icache[i]) + {g.inodestart + i / IPB}
      ensures out.Wrote? ==>
        |data| <= Span(off, |src|) && |bits| <= New(NoHoles(old(blocks), old(icache)[i]), off, |src|) + 1
      ensures out.Wrote? ==> forall x :: x in bits ==> g.bmapstart <= x < g.bmapstart + g.nbitmap
      ensures LogCovers(g, old(Now()), Now())
    {
      hide Progress, Account, FilesOf, Splice, Owned, Span, New, NoHoles, FileBlock, Sized, AddrsPresent, LogCovers;
      var n := |src|;
      data, bits := {}, {};
      LogCoversNothing(g, Now());
      if off > icache[i].size || (off + n) % WORD < off {
        return Refused, data, bits;
      }
      if off + n > MAXFILE * BSIZE {
        return Refused, data, bits;
      }
      var ok;
      ok, data, bits := WriteBytes(i, src, off);
      if !ok {
        return OutOfBlocks, data, bits;
      }
      AccountDone(g, NoHoles(old(blocks), old(icache)[i]), old(icache)[i], icache[i], off, n, old(logged), logged,
        data, bits);
      WriteDone(old(blocks), old(icache), blocks, icache, i, off, src);
      SameAddrsKeepOwned(g, bm, blocks, icache, owner, i, icache[i].(size := NewSize(old(icache)[i], off, n)));
      assert icache[i := icache[i].(size := icache[i].size)] == icache;
      if n > 0 && off + n > icache[i].size {
        icache := icache[i := icache[i].(size := off + n)];
        ghost var n1 := Now();
        Iupdate(i);
        LogCoversTwice(g, old(Now()), n1, Now());
      }
      out := Wrote(n);
    }

    /** One turn of readi's loop: m bytes that stay inside one block. */
    method ReadPiece(i: nat, at: nat, m: nat) returns (piece: Option<seq<byte>>)
      requires Own() && AllSized(blocks, icache) && i < |icache| && 0 < m
      requires at % BSIZE + m <= BSIZE && at + m <= icache[i].size && at / BSIZE < MAXFILE
      modifies this`bm, this`blocks, this`icache, this`owner, this`logged
      ensures piece.None? ==> Exhausted() && (at / BSIZE < NDIRECT ==> unchanged(this))
      ensures piece.Some? ==>
        Own() && |icache| == |old(icache)| && AllSized(blocks, icache) && icache[i].size == old(icache)[i].size
      ensures piece.Some? ==> Grown(old(blocks), old(icache), old(owner), blocks, icache, owner, i)
      ensures piece.Some? ==> piece.value == FilesOf(old(blocks), old(icache))[i][at..at + m]
      ensures FileBlock(old(blocks), old(icache)[i], at / BSIZE) != 0 ==> piece.Some? && unchanged(this)
      ensures piece.Some? && FileBlock(old(blocks), old(icache)[i], at / BSIZE) == 0 ==>
        exists x :: x in owner && x !in old(owner)
      ensures piece.Some? ==> (icache[i].addrs == old(icache)[i].addrs <==> AddrPresent(old(icache)[i], at / BSIZE))
      ensures LogCovers(g, old(Now()), Now())
    {
      hide Owned, FileBlock, Grown, FilesOf, AddrPresent, WholeKept, Shadow, Indirect, LogCovers;
      FileLength(blocks, icache, i);
      var addr, _ := Bmap(i, at / BSIZE);
      if addr.None? {
        return None;
      }
      ReadSame(old(blocks), old(icache), old(owner), blocks, icache, owner, i);
      ReadChunk(blocks, icache, i, at, m);
      piece := Some(blocks[addr.value][at % BSIZE..at % BSIZE + m]);
    }

    /** readi's loop, once the bounds have been checked and the count cut. */
    method ReadBytes(i: nat, off: nat, count: nat) returns (r: Option<seq<byte>>)
      requires Own() && AllSized(blocks, icache) && i < |icache| && off + count <= icache[i].size
      modifies this`bm, this`blocks, this`icache, this`owner, this`logged
      ensures WellFormed(old(blocks), old(icache)[i])
      ensures r.None? ==> Exhausted() && MeetsHole(old(blocks), old(icache)[i], off, count)
      ensures r.None? && off + count <= NDIRECT * BSIZE ==>
        old(Exhausted()) || TwoHoles(old(blocks), old(icache)[i], off, count)
      ensures r.Some? ==>
        Own() && Scanned(old(blocks), old(icache), old(owner), blocks, icache, owner, i, off, count)
      ensures r.Some? ==> r.value == FilesOf(old(blocks), old(icache))[i][off..off + count]
      ensures !MeetsHole(old(blocks), old(icache)[i], off, count) ==> unchanged(this)
      ensures LogCovers(g, old(Now()), Now())
    {
      hide Owned, FileBlock, Grown, FilesOf, WellFormed, AddrPresent, AddrsPresent, MeetsHole, Sized, Scanned,
        LogCovers;
      var dst, tot := [], 0;
      ghost var file, o0 := FilesOf(blocks, icache)[i], owner;
      FileLength(blocks, icache, i);
      ScannedStart(g, bm, blocks, icache, owner, i, off);
      LogCoversNothing(g, Now());
      while tot < count
        invariant 0 <= tot <= count && (tot == 0 || tot == count || (off + tot) % BSIZE == 0)
        invariant Own() && |icache| == |old(icache)| && AllSized(blocks, icache)
        invariant icache[i].size == old(icache)[i].size
        invariant Scanned(old(blocks), old(icache), o0, blocks, icache, owner, i, off, tot)
        invariant !MeetsHole(old(blocks), old(icache)[i], off, tot) ==> unchanged(this)
        invariant dst == file[off..off + tot]
        invariant LogCovers(g, old(Now()), Now())
      {
        var at := off + tot;
        var m := if count - tot < BSIZE - at % BSIZE then count - tot else BSIZE - at % BSIZE;
        ChunkEnd(at, m);
        ghost var b1, i1, o1, n1 := blocks, icache, owner, Now();
        ScannedAhead(old(blocks), old(icache), o0, b1, i1, o1, i, off, tot, m);
        var piece := ReadPiece(i, at, m);
        LogCoversTwice(g, old(Now()), n1, Now());
        if piece.None? {
          MeetsMore(old(blocks), old(icache)[i], off, tot + m, count);
          if MeetsHole(old(blocks), old(icache)[i], off, tot) {
            SecondHole(old(blocks), old(icache)[i], off, tot, m, count);
          }
          return None;
        }
        ScannedNext(old(blocks), old(icache), o0, b1, i1, o1, blocks, icache, owner, i, off, tot, m);
        dst := dst + piece.value;
        assert file[off..at + m] == file[off..at] + file[at..at + m];
        tot := tot + m;
      }
      r := Some(dst);
    }

    /** readi. It refuses exactly a start past the end of the file and an end past 2^32; otherwise it
        returns the bytes of the file from off, cut at its end, and no file reads differently after it.
        It goes through bmap, and so it takes blocks, and the free map changes, exactly when the range
        meets a hole; without a hole nothing at all changes. It never copies the inode to disk, so the inode
        on disk is still the cached one exactly when no address was missing. */
    method Readi(i: nat, off: nat, n: nat) returns (r: ReadOutcome)
      requires Valid() && i < |icache| && off < WORD && n < WORD
      modifies this`bm, this`blocks, this`icache, this`owner, this`logged
      ensures r.NoBlock? ==> Exhausted()
      ensures r.BadRange? <==> off > old(icache)[i].size || off + n >= WORD
      ensures r.BadRange? ==> unchanged(this)
      ensures r.NoBlock? && old(icache)[i].size <= NDIRECT * BSIZE ==>
        old(Exhausted()) || TwoHoles(old(blocks), old(icache)[i], off, Cut(old(icache)[i].size, off, n) - off)
      ensures r.Bytes? ==> Valid() && Files() == old(Files()) && |icache| == |old(icache)|
      ensures r.Bytes? ==> r.data == Files()[i][off..Cut(old(icache)[i].size, off, n)]
      ensures r.Bytes? ==> WholeKept(old(blocks), old(icache), blocks, icache)
      ensures r.Bytes? ==> forall j :: 0 <= j < |icache| && j != i ==> icache[j] == old(icache)[j]
      ensures !r.BadRange? ==>
        var met := MeetsHole(old(blocks), old(icache)[i], off, Cut(old(icache)[i].size, off, n) - off);
        && (!met ==> r.Bytes? && unchanged(this))
        && (r.Bytes? ==> (bm == old(bm) <==> !met))
        && (r.Bytes? && met ==> !old(Exhausted()))
      ensures r.Bytes? && old(Synced(i)) ==>
        (Synced(i) <==> AddrsPresent(old(icache)[i], off, Cut(old(icache)[i].size, off, n) - off))
      ensures LogCovers(g, old(Now()), Now())
    {
      hide Owned, FilesOf, WellFormed, AddrsPresent, MeetsHole, WholeKept, Shadow, Sized, Scanned, LogCovers;
      LogCoversNothing(g, Now());
      if off > icache[i].size || (off + n) % WORD < off {
        return BadRange;
      }
      var count := if off + n > icache[i].size then icache[i].size - off else n;
      FileLength(blocks, icache, i);
      var dst := ReadBytes(i, off, count);
      if dst.None? {
        return NoBlock;
      }
      ScannedDone(g, old(bm), bm, old(blocks), old(icache), old(owner), blocks, icache, owner, dinodes, i, off, count);
      r := Bytes(dst.value);
    }

    /** The part of itrunc that frees the entries of the indirect block and the block itself. */
    method FreeIndirect(i: nat) returns (ok: bool)
      requires Own() && i < |icache| && icache[i].addrs[NDIRECT] != 0
      modifies this`bm, this`icache, this`owner, this`logged
      ensures ok && Own() && icache == SetAddr(old(icache), i, NDIRECT, 0)
      ensures OwnerShrinks(old(owner), owner, i)
      ensures LogCovers(g, old(Now()), Now())
    {
      hide InUse, Clear, Entries, LogCovers;
      var a := icache[i].addrs[NDIRECT];
      AddrHeld(g, bm, blocks, icache, owner, i, NDIRECT);
      NoEntries(blocks, icache[i]);
      LogCoversNothing(g, Now());
      var j := 0;
      while j < NINDIRECT
        invariant 0 <= j <= NINDIRECT && |bm| == g.nbitmap && icache == old(icache) && owner == old(owner)
        invariant forall c: nat :: c < g.size ==>
          (InUse(bm, c) <==> InUse(old(bm), c) && c !in Entries(blocks, icache[i], j))
        invariant LogCovers(g, old(Now()), Now())
      {
        var e := IndirectEntry(blocks, icache[i], j);
        NextEntry(g, old(bm), blocks, icache, owner, i, j);
        if e != 0 {
          ghost var before, n1 := bm, Now();
          ok := Bfree(e);
          LogCoversTwice(g, old(Now()), n1, Now());
          if !ok {
            return false;
          }
          ClearReadsAll(g, before, e);
        }
        j := j + 1;
      }
      ghost var before, n1 := bm, Now();
      EntriesHeld(g, old(bm), blocks, icache, owner, i, NINDIRECT);
      ok := Bfree(a);
      LogCoversTwice(g, old(Now()), n1, Now());
      if !ok {
        return false;
      }
      ClearReadsAll(g, before, a);
      icache := icache[i := icache[i].(addrs := icache[i].addrs[NDIRECT := 0])];
      owner := owner - Entries(blocks, old(icache)[i], NINDIRECT) - {a};
      ReleaseIndirect(g, old(bm), blocks, old(icache), old(owner), i, bm);
    }

    /** itrunc. Every bfree in it finds its block in use, so the panic is never reached; the
        inode is left holding no block, every block it held is free again, and no other inode
        is affected. */
    method Itrunc(i: nat) returns (ok: bool)
      requires Valid() && i < |icache|
      modifies this`bm, this`icache, this`dinodes, this`owner, this`logged
      ensures ok && Valid() && i < |icache| && Synced(i)
      ensures Files() == old(Files())[i := []]
      ensures forall k :: 0 <= k <= NDIRECT ==> icache[i].addrs[k] == 0
      ensures forall b :: b in owner <==> b in old(owner) && old(owner)[b].inum != i
      ensures forall j :: 0 <= j < |icache| && j != i ==> icache[j] == old(icache)[j] && dinodes[j] == old(dinodes)[j]
      ensures LogCovers(g, old(Now()), Now())
    {
      hide Owned, InUse, Clear, Content, NoHoles, FilesOf, Sized, LogCovers;
      AddrHeld(g, bm, blocks, icache, owner, i, 0);
      LogCoversNothing(g, Now());
      var k := 0;
      while k < NDIRECT
        invariant 0 <= k <= NDIRECT
        invariant Own() && OnlyAddrs(old(icache), icache, i) && |icache[i].addrs| == NDIRECT + 1 &&
          dinodes == old(dinodes)
        invariant forall m :: 0 <= m < k ==> icache[i].addrs[m] == 0
        invariant OwnerShrinks(old(owner), owner, i)
        invariant LogCovers(g, old(Now()), Now())
      {
        AddrHeld(g, bm, blocks, icache, owner, i, k);
        if icache[i].addrs[k] != 0 {
          var b := icache[i].addrs[k];
          ghost var n1 := Now();
          ReleaseDirect(g, bm, blocks, icache, owner, i, k);
          ok := Bfree(b);
          LogCoversTwice(g, old(Now()), n1, Now());
          if !ok {
            return false;
          }
          icache := icache[i := icache[i].(addrs := icache[i].addrs[k := 0])];
          owner := owner - {b};
        }
        k := k + 1;
      }
      if icache[i].addrs[NDIRECT] != 0 {
        ghost var n1 := Now();
        ok := FreeIndirect(i);
        LogCoversTwice(g, old(Now()), n1, Now());
        if !ok {
          return false;
        }
      }
      NothingHeld(g, bm, blocks, icache, owner, i);
      SameAddrsKeepOwned(g, bm, blocks, icache, owner, i, icache[i].(size := 0));
      EmptiedFile(g, bm, blocks, old(icache), icache, owner, i);
      icache := icache[i := icache[i].(size := 0)];
      ghost var n1 := Now();
      Iupdate(i);
      LogCoversTwice(g, old(Now()), n1, Now());
      ok := true;
    }
  }

  /** Entry k of the indirect block takes the free block b. */
  lemma EntryGrown(g: Geometry, bm: seq<Block>, blocks: seq<Block>, inodes: seq<Inode>, owner: map<nat, Slot>, i: nat,
      k: nat, b: nat)
    requires Owned(g, bm, blocks, inodes, owner) && i < |inodes| && k < NINDIRECT && inodes[i].addrs[NDIRECT] != 0
    requires IndirectEntry(blocks, inodes[i], k) == 0 && g.nmeta <= b < g.size && !InUse(bm, b)
    ensures b !in owner && b != 0 && b < WORD && inodes[i].addrs[NDIRECT] != b &&
      inodes[i].addrs[NDIRECT] < |blocks| == g.size
    ensures var blocks', owner' := SetEntry(blocks, inodes[i].addrs[NDIRECT], k, b), owner[b := Entry(i, k)];
      && Owned(g, Mark(bm, b), blocks', inodes, owner') && IndirectEntry(blocks', inodes[i], k) == b
      && Grown(blocks, inodes, owner, blocks', inodes, owner', i)
  {
    NotYetOwned(g, bm, blocks, inodes, owner, b);
    AddrHeld(g, bm, blocks, inodes, owner, i, NDIRECT);
    hide SameData, KeepsBlocks, InUse, SlotsOwn, MapExact, OwnersHold, Mark, Get32, Put32;
    GrowEntry(g, bm, blocks, inodes, owner, i, k, b);
    WordRoundTrip(blocks[inodes[i].addrs[NDIRECT]], 4 * k, b);
  }

  /** A new indirect block has no entries, and one that is there keeps its own. */
  lemma NewIndirect(b0: seq<Block>, ip0: Inode, b1: seq<Block>, ip1: Inode, k: nat)
    requires WellFormed(b0, ip0) && WellFormed(b1, ip1) && k < NINDIRECT && ip1.addrs[NDIRECT] != 0
    requires ip0.addrs[NDIRECT] == 0 ==> b1[ip1.addrs[NDIRECT]] == ZeroBlock()
    requires ip0.addrs[NDIRECT] != 0 ==> b1 == b0 && ip1 == ip0
    ensures IndirectEntry(b1, ip1, k) == IndirectEntry(b0, ip0, k)
  {
    ZeroEntry(k);
  }

  lemma NotYetOwned(g: Geometry, bm: seq<Block>, blocks: seq<Block>, inodes: seq<Inode>, owner: map<nat, Slot>, b: nat)
    requires Owned(g, bm, blocks, inodes, owner) && b < g.size && !InUse(bm, b)
    ensures b !in owner
  {
  }

  // ---- Truncation ------------------------------------------------------------------------

  /** Blocks of inode i may have lost their owner; nothing else has changed. */
  ghost predicate OwnerShrinks(o: map<nat, Slot>, p: map<nat, Slot>, i: nat) {
    && (forall b :: b in p ==> b in o && p[b] == o[b])
    && (forall b :: b in o && o[b].inum != i ==> b in p)
  }

  lemma AddrHeld(g: Geometry, bm: seq<Block>, blocks: seq<Block>, inodes: seq<Inode>, owner: map<nat, Slot>, i: nat,
      k: nat)
    requires Owned(g, bm, blocks, inodes, owner) && i < |inodes| && k <= NDIRECT
    ensures g.Valid() && |bm| == g.nbitmap && |inodes[i].addrs| == NDIRECT + 1 && inodes[i].addrs[k] < g.size
    ensures inodes[i].addrs[k] != 0 ==> InUse(bm, inodes[i].addrs[k])
    ensures inodes[i].addrs[k] != 0 ==> inodes[i].addrs[k] in owner && owner[inodes[i].addrs[k]] == Direct(i, k)
  {
    hide InUse;
    assert SlotValue(blocks, inodes, Direct(i, k)) == inodes[i].addrs[k];
  }

  lemma ReleaseDirect(g: Geometry, bm: seq<Block>, blocks: seq<Block>, inodes: seq<Inode>, owner: map<nat, Slot>,
      i: nat, k: nat)
    requires Owned(g, bm, blocks, inodes, owner) && i < |inodes| && k < NDIRECT && inodes[i].addrs[k] != 0
    ensures Owned(g, Clear(bm, inodes[i].addrs[k]), blocks, SetAddr(inodes, i, k, 0), owner - {inodes[i].addrs[k]})
  {
    hide InUse, Get32;
    assert SlotValue(blocks, inodes, Direct(i, k)) == inodes[i].addrs[k];
    OwnerLoses(g, bm, blocks, inodes, owner, blocks, SetAddr(inodes, i, k, 0), Direct(i, k), inodes[i].addrs[k]);
  }

  /** The blocks named by the first j entries of the indirect block. */
  ghost function Entries(blocks: seq<Block>, ip: Inode, j: nat): set<nat>
    requires WellFormed(blocks, ip) && j <= NINDIRECT
  {
    if j == 0 then {}
    else if IndirectEntry(blocks, ip, j - 1) == 0 then Entries(blocks, ip, j - 1)
    else Entries(blocks, ip, j - 1) + {IndirectEntry(blocks, ip, j - 1)}
  }

  lemma NoEntries(blocks: seq<Block>, ip: Inode)
    requires WellFormed(blocks, ip)
    ensures Entries(blocks, ip, 0) == {}
  {
  }

  lemma {:induction false} EntriesHeld(g: Geometry, bm: seq<Block>, blocks: seq<Block>, inodes: seq<Inode>,
      owner: map<nat, Slot>, i: nat, j: nat)
    requires Owned(g, bm, blocks, inodes, owner) && i < |inodes| && j <= NINDIRECT
    ensures forall c :: c in Entries(blocks, inodes[i], j) ==>
      c in owner && owner[c].Entry? && owner[c].inum == i && owner[c].k < j
    ensures forall c :: c in owner && owner[c].Entry? && owner[c].inum == i && owner[c].k < j ==>
      c in Entries(blocks, inodes[i], j)
  {
    hide InUse, Get32;
    if j > 0 {
      EntriesHeld(g, bm, blocks, inodes, owner, i, j - 1);
      assert SlotValue(blocks, inodes, Entry(i, j - 1)) == IndirectEntry(blocks, inodes[i], j - 1);
    }
  }

  lemma NextEntry(g: Geometry, bm: seq<Block>, blocks: seq<Block>, inodes: seq<Inode>, owner: map<nat, Slot>, i: nat,
      j: nat)
    requires Owned(g, bm, blocks, inodes, owner) && i < |inodes| && j < NINDIRECT
    ensures var e := IndirectEntry(blocks, inodes[i], j);
      && e < g.size
      && (e != 0 ==> InUse(bm, e) && e !in Entries(blocks, inodes[i], j))
      && Entries(blocks, inodes[i], j + 1) == if e == 0 then Entries(blocks, inodes[i], j)
        else Entries(blocks, inodes[i], j) + {e}
  {
    hide InUse, Get32;
    EntriesHeld(g, bm, blocks, inodes, owner, i, j);
    assert SlotValue(blocks, inodes, Entry(i, j)) == IndirectEntry(blocks, inodes[i], j);
  }

  lemma ClearReadsAll(g: Geometry, bm: seq<Block>, b: nat)
    requires g.Valid() && |bm| == g.nbitmap && b < g.size
    ensures forall c: nat :: c < g.size ==> (InUse(Clear(bm, b), c) <==> c != b && InUse(bm, c))
  {
    hide InUse, Clear;
    forall c: nat | c < g.size
      ensures InUse(Clear(bm, b), c) <==> c != b && InUse(bm, c)
    {
      ClearReads(bm, b, c);
    }
  }

  lemma ReleaseIndirect(g: Geometry, bm: seq<Block>, blocks: seq<Block>, inodes: seq<Inode>, owner: map<nat, Slot>,
      i: nat, bm': seq<Block>)
    requires Owned(g, bm, blocks, inodes, owner) && i < |inodes| && inodes[i].addrs[NDIRECT] != 0 && |bm'| == |bm|
    requires var a, es := inodes[i].addrs[NDIRECT], Entries(blocks, inodes[i], NINDIRECT);
      forall c: nat :: c < g.size ==> (InUse(bm', c) <==> InUse(bm, c) && c !in es && c != a)
    ensures var a, es := inodes[i].addrs[NDIRECT], Entries(blocks, inodes[i], NINDIRECT);
      Owned(g, bm', blocks, SetAddr(inodes, i, NDIRECT, 0), owner - es - {a}) &&
        OwnerShrinks(owner, owner - es - {a}, i)
  {
    hide InUse, Get32, Entries;
    var a, es := inodes[i].addrs[NDIRECT], Entries(blocks, inodes[i], NINDIRECT);
    var inodes' := SetAddr(inodes, i, NDIRECT, 0);
    EntriesHeld(g, bm, blocks, inodes, owner, i, NINDIRECT);
    AddrHeld(g, bm, blocks, inodes, owner, i, NDIRECT);
    forall s | ValidSlot(inodes, s)
      ensures SlotValue(blocks, inodes', s) == if s.inum == i && (s.Entry? || s.k == NDIRECT) then 0
        else SlotValue(blocks, inodes, s)
    {
    }
  }

  /** An inode whose addresses are all 0 owns nothing. */
  lemma NothingHeld(g: Geometry, bm: seq<Block>, blocks: seq<Block>, inodes: seq<Inode>, owner: map<nat, Slot>, i: nat)
    requires Owned(g, bm, blocks, inodes, owner) && i < |inodes|
    requires forall k :: 0 <= k <= NDIRECT ==> inodes[i].addrs[k] == 0
    ensures forall b :: b in owner ==> owner[b].inum != i
  {
  }

  lemma EmptiedFile(g: Geometry, bm: seq<Block>, blocks: seq<Block>, i0: seq<Inode>, i1: seq<Inode>,
      owner: map<nat, Slot>, i: nat)
    requires Owned(g, bm, blocks, i1, owner) && AllSized(blocks, i0) && OnlyAddrs(i0, i1, i)
    ensures var i2 := i1[i := i1[i].(size := 0)];
      AllSized(blocks, i2) && FilesOf(blocks, i2) == FilesOf(blocks, i0)[i := []]
  {
  }

  function NewSize(ip: Inode, off: nat, n: nat): nat {
    if off + n <= ip.size then ip.size else off + n
  }

  /** What one chunk does to the blocks and inodes. */
  ghost predicate ChunkStep(b0: seq<Block>, i0: seq<Inode>, b1: seq<Block>, i1: seq<Inode>, i: nat, off: nat,
      piece: seq<byte>) {
    && OnlyAddrs(i0, i1, i) && off / BSIZE < MAXFILE
    && KeepsBlocks(b0, i0, b1, i1)
    && OthersKept(b0, i0, b1, i1, i)
    && Patched(b0, i0[i], b1, i1[i], off, piece)
    && FileBlock(b1, i1[i], off / BSIZE) != 0
  }

  /** Where writei stands after `tot` bytes: i0 and b0 are the inodes and blocks it started from. */
  ghost predicate Progress(b0: seq<Block>, i0: seq<Inode>, b1: seq<Block>, i1: seq<Inode>, i: nat, off: nat,
      src: seq<byte>, tot: nat) {
    && tot <= |src| && AllSized(b0, i0)
    && OnlyAddrs(i0, i1, i) && off <= i0[i].size
    && KeepsBlocks(b0, i0, b1, i1)
    && OthersKept(b0, i0, b1, i1, i)
    && Patched(b0, i0[i], b1, i1[i], off, src[..tot])
    && Covers(b1, i1[i], off, tot)
    && |i0[i].addrs| == NDIRECT + 1 && Grows(i0[i].addrs, i1[i].addrs)
    && (i1[i].addrs == i0[i].addrs <==> AddrsPresent(i0[i], off, tot))
  }

  lemma ProgressStart(g: Geometry, bm: seq<Block>, blocks: seq<Block>, inodes: seq<Inode>, owner: map<nat, Slot>,
      i: nat, off: nat, src: seq<byte>)
    requires Owned(g, bm, blocks, inodes, owner) && AllSized(blocks, inodes) && i < |inodes| && off <= inodes[i].size
    ensures Progress(blocks, inodes, blocks, inodes, i, off, src, 0)
    ensures |inodes[i].addrs| == NDIRECT + 1
  {
  }

  /** What the next chunk may rely on: the shape of the inode, and that without holes an unaligned first
      chunk finds its block there. */
  lemma ProgressAhead(b0: seq<Block>, i0: seq<Inode>, b1: seq<Block>, i1: seq<Inode>, i: nat, off: nat,
      src: seq<byte>, tot: nat, m: nat)
    requires Progress(b0, i0, b1, i1, i, off, src, tot) && 0 < m && tot + m <= |src|
    requires off + |src| <= MAXFILE * BSIZE
    ensures i < |i1| == |i0| && WellFormed(b1, i1[i]) && (off + tot) / BSIZE < MAXFILE
    ensures NoHoles(b0, i0[i]) && tot == 0 && off % BSIZE != 0 ==> FileBlock(b1, i1[i], off / BSIZE) != 0
  {
  }

  lemma ProgressNext(b0: seq<Block>, i0: seq<Inode>, b1: seq<Block>, i1: seq<Inode>, b2: seq<Block>, i2: seq<Inode>,
      i: nat, off: nat, src: seq<byte>, tot: nat, m: nat)
    requires Progress(b0, i0, b1, i1, i, off, src, tot) && tot + m <= |src|
    requires (off + tot) % BSIZE + m <= BSIZE && (off + tot) / BSIZE < MAXFILE && 0 < m
    requires tot == 0 || (off + tot) % BSIZE == 0
    requires ChunkStep(b1, i1, b2, i2, i, off + tot, src[tot..tot + m])
    requires i < |i1| && i < |i2| && |i1[i].addrs| == NDIRECT + 1 && Grows(i1[i].addrs, i2[i].addrs)
    requires i2[i].addrs == i1[i].addrs <==> AddrPresent(i1[i], (off + tot) / BSIZE)
    ensures Progress(b0, i0, b2, i2, i, off, src, tot + m)
  {
    hide KeepsBlocks, OthersKept, Patched, Covers, FileBlock, AddrsPresent, Sized;
    ChunkDone(b0, i0, b1, i1, b2, i2, i, off, src, tot, m);
    AddrsNext(i0[i], i1[i], i2[i], off, tot, m);
  }

  lemma RangeNext(off: nat, tot: nat, m: nat, bn: nat)
    requires 0 < m && (off + tot) % BSIZE + m <= BSIZE && (tot == 0 || (off + tot) % BSIZE == 0)
    ensures InRange(off, tot + m, bn) <==> InRange(off, tot, bn) || bn == (off + tot) / BSIZE
  {
  }

  lemma AddrsNext(ip0: Inode, ip1: Inode, ip2: Inode, off: nat, tot: nat, m: nat)
    requires 0 < m && (off + tot) % BSIZE + m <= BSIZE && (tot == 0 || (off + tot) % BSIZE == 0)
    requires |ip0.addrs| == |ip1.addrs| == NDIRECT + 1 && Grows(ip0.addrs, ip1.addrs) && Grows(ip1.addrs, ip2.addrs)
    requires ip1.addrs == ip0.addrs <==> AddrsPresent(ip0, off, tot)
    requires ip2.addrs == ip1.addrs <==> AddrPresent(ip1, (off + tot) / BSIZE)
    ensures Grows(ip0.addrs, ip2.addrs)
    ensures ip2.addrs == ip0.addrs <==> AddrsPresent(ip0, off, tot + m)
  {
    hide InRange;
    forall bn: nat
      ensures InRange(off, tot + m, bn) <==> InRange(off, tot, bn) || bn == (off + tot) / BSIZE
    {
      RangeNext(off, tot, m, bn);
    }
    RangeNext(off, tot, m, (off + tot) / BSIZE);
    if ip2.addrs == ip0.addrs {
      assert forall k :: 0 <= k <= NDIRECT ==> ip1.addrs[k] == ip0.addrs[k];
      assert ip1.addrs == ip0.addrs;
    }
  }

  // ---- What one writei logs -----------------------------------------------------------

  /** The number of blocks that n bytes at offset off touch. */
  function Span(off: nat, n: nat): nat {
    if n == 0 then 0 else (off + n - 1) / BSIZE - off / BSIZE + 1
  }

  /** How many of them can be new: an unaligned first block is inside the file already. */
  function Fresh(off: nat, n: nat): nat {
    if n == 0 then 0 else if off % BSIZE != 0 then Span(off, n) - 1 else Span(off, n)
  }

  /** How many can be new, in a file with or without holes. */
  function New(whole: bool, off: nat, n: nat): nat {
    if whole then Fresh(off, n) else Span(off, n)
  }

  ghost predicate Account(g: Geometry, whole: bool, ip0: Inode, ip1: Inode, off: nat, tot: nat,
      logged0: set<nat>, logged: set<nat>, data: set<nat>, bits: set<nat>) {
    && |ip0.addrs| == |ip1.addrs| == NDIRECT + 1
    && Indirect(ip0) <= Indirect(ip1)
    && logged <= logged0 + data + bits + Indirect(ip1)
    && |data| <= Span(off, tot)
    && |bits| <= New(whole, off, tot) + |Indirect(ip1)| - |Indirect(ip0)|
    && (forall x :: x in bits ==> g.bmapstart <= x < g.bmapstart + g.nbitmap)
  }

  lemma AccountStart(g: Geometry, whole: bool, ip: Inode, off: nat, logged: set<nat>)
    requires |ip.addrs| == NDIRECT + 1
    ensures Account(g, whole, ip, ip, off, 0, logged, logged, {}, {})
  {
  }

  lemma AccountNext(g: Geometry, whole: bool, ip0: Inode, ip1: Inode, ip2: Inode, off: nat, tot: nat, m: nat,
      logged0: set<nat>, logged1: set<nat>, logged2: set<nat>, data: set<nat>, bits: set<nat>, addr: nat,
        more: set<nat>)
    requires Account(g, whole, ip0, ip1, off, tot, logged0, logged1, data, bits)
    requires 0 < m && (off + tot) % BSIZE + m <= BSIZE && (tot == 0 || (off + tot) % BSIZE == 0)
    requires |ip2.addrs| == NDIRECT + 1 && Indirect(ip1) <= Indirect(ip2)
    requires logged2 <= logged1 + more + {addr} + Indirect(ip2)
    requires |more| <= 1 + |Indirect(ip2)| - |Indirect(ip1)|
    requires whole && tot == 0 && off % BSIZE != 0 ==> more == {}
    requires forall x :: x in more ==> g.bmapstart <= x < g.bmapstart + g.nbitmap
    ensures Account(g, whole, ip0, ip2, off, tot + m, logged0, logged2, data + {addr}, bits + more)
  {
  }

  lemma AccountDone(g: Geometry, whole: bool, ip0: Inode, ip1: Inode, off: nat, tot: nat,
      logged0: set<nat>, logged: set<nat>, data: set<nat>, bits: set<nat>)
    requires Account(g, whole, ip0, ip1, off, tot, logged0, logged, data, bits)
    ensures |ip0.addrs| == |ip1.addrs| == NDIRECT + 1
    ensures logged <= logged0 + data + bits + Indirect(ip1)
    ensures |data| <= Span(off, tot) && |bits| <= New(whole, off, tot) + 1
    ensures forall x :: x in bits ==> g.bmapstart <= x < g.bmapstart + g.nbitmap
  {
  }

  /** A chunk of filewrite, at most 1536 bytes, logs at most ten blocks in a file without holes: four of
      data, four of the free map, the indirect block and the inode; in a file with holes the free map can
      take one more. With a free map of one block they are at most seven. */
  lemma ChunkFitsTransaction(g: Geometry, whole: bool, off: nat, n: nat, logged: set<nat>, data: set<nat>,
      bits: set<nat>, ind: set<nat>, inode: nat)
    requires n <= 1536 && |ind| <= 1
    requires logged <= data + bits + ind + {inode}
    requires |data| <= Span(off, n) && |bits| <= New(whole, off, n) + 1
    requires forall x :: x in bits ==> g.bmapstart <= x < g.bmapstart + g.nbitmap
    ensures |logged| <= if whole then 10 else 11
    ensures g.nbitmap == 1 ==> |logged| <= 7
  {
    UnionSize(data, bits);
    UnionSize(data + bits, ind);
    UnionSize(data + bits + ind, {inode});
    SubsetSize(logged, data + bits + ind + {inode});
    if g.nbitmap == 1 {
      SubsetSize(bits, {g.bmapstart});
    }
  }

  lemma SubsetSize(a: set<nat>, b: set<nat>)
    requires a <= b
    ensures |a| <= |b|
  {
    assert b == a + (b - a);
  }

  /** `c` with `src` written at offset off, longer if it does not fit. */
  function Splice(c: seq<byte>, off: nat, src: seq<byte>): seq<byte>
    requires off <= |c|
  {
    if off + |src| <= |c| then c[..off] + src + c[off + |src|..] else c[..off] + src
  }

  /** Every block that holds some of the n bytes at offset off is allocated. */
  ghost predicate Covers(blocks: seq<Block>, ip: Inode, off: nat, n: nat) {
    && WellFormed(blocks, ip)
    && forall bn: nat :: bn < MAXFILE && InRange(off, n, bn) ==> FileBlock(blocks, ip, bn) != 0
  }

  /** What one more chunk adds to the loop's progress. */
  lemma ChunkDone(b0: seq<Block>, i0: seq<Inode>, b1: seq<Block>, i1: seq<Inode>, b2: seq<Block>, i2: seq<Inode>,
      i: nat, off: nat, src: seq<byte>, tot: nat, m: nat)
    requires i < |i0| && tot + m <= |src| && (off + tot) % BSIZE + m <= BSIZE && (off + tot) / BSIZE < MAXFILE
    requires 0 < m && (tot == 0 || (off + tot) % BSIZE == 0)
    requires KeepsBlocks(b0, i0, b1, i1) && KeepsBlocks(b1, i1, b2, i2)
    requires OthersKept(b0, i0, b1, i1, i) && OthersKept(b1, i1, b2, i2, i)
    requires Patched(b0, i0[i], b1, i1[i], off, src[..tot])
    requires Patched(b1, i1[i], b2, i2[i], off + tot, src[tot..tot + m])
    requires Covers(b1, i1[i], off, tot) && FileBlock(b2, i2[i], (off + tot) / BSIZE) != 0
    ensures KeepsBlocks(b0, i0, b2, i2) && OthersKept(b0, i0, b2, i2, i)
    ensures Patched(b0, i0[i], b2, i2[i], off, src[..tot + m])
    ensures Covers(b2, i2[i], off, tot + m)
  {
    forall bn: nat | bn < MAXFILE && InRange(off, tot + m, bn)
      ensures FileBlock(b2, i2[i], bn) != 0
    {
      RangeNext(off, tot, m, bn);
    }
  }

  lemma FileLength(blocks: seq<Block>, inodes: seq<Inode>, i: nat)
    requires AllSized(blocks, inodes) && i < |inodes|
    ensures |FilesOf(blocks, inodes)[i]| == inodes[i].size <= MAXFILE * BSIZE
  {
  }

  // ---- Reading ------------------------------------------------------------------------------

  /** The end of the n bytes at offset off, cut at the end of the file. */
  function Cut(size: nat, off: nat, n: nat): (e: nat)
    requires off <= size
    ensures off <= e <= size
  {
    if off + n <= size then off + n else size
  }

  /** Where readi stands after tot bytes. */
  ghost predicate Scanned(b0: seq<Block>, i0: seq<Inode>, o0: map<nat, Slot>, b1: seq<Block>, i1: seq<Inode>,
      o1: map<nat, Slot>,
      i: nat, off: nat, tot: nat) {
    && Grown(b0, i0, o0, b1, i1, o1, i) && AllSized(b0, i0)
    && (o1.Keys == o0.Keys <==> !MeetsHole(b0, i0[i], off, tot))
    && (i1[i].addrs == i0[i].addrs <==> AddrsPresent(i0[i], off, tot))
  }

  lemma ScannedStart(g: Geometry, bm: seq<Block>, blocks: seq<Block>, inodes: seq<Inode>, owner: map<nat, Slot>,
      i: nat, off: nat)
    requires Owned(g, bm, blocks, inodes, owner) && i < |inodes| && AllSized(blocks, inodes)
    ensures Scanned(blocks, inodes, owner, blocks, inodes, owner, i, off, 0)
    ensures WellFormed(blocks, inodes[i])
  {
    GrownNot(g, bm, blocks, inodes, owner, i);
  }

  lemma HoleNext(blocks: seq<Block>, ip: Inode, off: nat, tot: nat, m: nat)
    requires WellFormed(blocks, ip) && 0 < m && off + tot + m <= MAXFILE * BSIZE
    requires (off + tot) % BSIZE + m <= BSIZE && (tot == 0 || (off + tot) % BSIZE == 0)
    ensures MeetsHole(blocks, ip, off, tot + m) <==>
      MeetsHole(blocks, ip, off, tot) || FileBlock(blocks, ip, (off + tot) / BSIZE) == 0
  {
    hide FileBlock, InRange;
    forall bn: nat
      ensures InRange(off, tot + m, bn) <==> InRange(off, tot, bn) || bn == (off + tot) / BSIZE
    {
      RangeNext(off, tot, m, bn);
    }
    RangeNext(off, tot, m, (off + tot) / BSIZE);
  }

  lemma ScannedAhead(b0: seq<Block>, i0: seq<Inode>, o0: map<nat, Slot>, b1: seq<Block>, i1: seq<Inode>,
      o1: map<nat, Slot>,
      i: nat, off: nat, tot: nat, m: nat)
    requires Scanned(b0, i0, o0, b1, i1, o1, i, off, tot) && 0 < m && off + tot + m <= MAXFILE * BSIZE
    requires (off + tot) % BSIZE + m <= BSIZE && (tot == 0 || (off + tot) % BSIZE == 0)
    ensures (off + tot) / BSIZE < MAXFILE && WellFormed(b0, i0[i]) && i < |i1| && WellFormed(b1, i1[i])
    ensures AllSized(b0, i0) && AllSized(b1, i1) && FilesOf(b1, i1) == FilesOf(b0, i0)
    ensures MeetsHole(b0, i0[i], off, tot + m) <==>
      MeetsHole(b0, i0[i], off, tot) || FileBlock(b0, i0[i], (off + tot) / BSIZE) == 0
    ensures FileBlock(b0, i0[i], (off + tot) / BSIZE) != 0 ==>
      FileBlock(b1, i1[i], (off + tot) / BSIZE) == FileBlock(b0, i0[i], (off + tot) / BSIZE)
  {
    hide FileBlock, MeetsHole, AddrsPresent, FilesOf;
    HoleNext(b0, i0[i], off, tot, m);
    ReadSame(b0, i0, o0, b1, i1, o1, i);
  }

  lemma ScannedNext(b0: seq<Block>, i0: seq<Inode>, o0: map<nat, Slot>, b1: seq<Block>, i1: seq<Inode>,
      o1: map<nat, Slot>,
      b2: seq<Block>, i2: seq<Inode>, o2: map<nat, Slot>, i: nat, off: nat, tot: nat, m: nat)
    requires Scanned(b0, i0, o0, b1, i1, o1, i, off, tot) && 0 < m && off + tot + m <= MAXFILE * BSIZE
    requires (off + tot) % BSIZE + m <= BSIZE && (tot == 0 || (off + tot) % BSIZE == 0)
    requires Grown(b1, i1, o1, b2, i2, o2, i)
    requires !MeetsHole(b0, i0[i], off, tot) ==> b1 == b0 && i1 == i0
    requires var bn := (off + tot) / BSIZE;
      && (i2[i].addrs == i1[i].addrs <==> AddrPresent(i1[i], bn))
      && (if FileBlock(b1, i1[i], bn) == 0 then exists x :: x in o2 && x !in o1 else o2 == o1)
    ensures Scanned(b0, i0, o0, b2, i2, o2, i, off, tot + m)
  {
    GrownTwice(b0, i0, o0, b1, i1, o1, b2, i2, o2, i);
    GrownAddrs(b0, i0, o0, b1, i1, o1, i);
    GrownAddrs(b1, i1, o1, b2, i2, o2, i);
    HoleNext(b0, i0[i], off, tot, m);
    AddrsNext(i0[i], i1[i], i2[i], off, tot, m);
    ScannedKept(b0, i0, o0, b1, i1, o1, i, (off + tot) / BSIZE);
    hide Grown, FileBlock, MeetsHole, AddrsPresent, AddrPresent, Grows;
  }

  lemma ScannedKept(b0: seq<Block>, i0: seq<Inode>, o0: map<nat, Slot>, b1: seq<Block>, i1: seq<Inode>,
      o1: map<nat, Slot>, i: nat, bn: nat)
    requires Grown(b0, i0, o0, b1, i1, o1, i) && bn < MAXFILE
    ensures FileBlock(b0, i0[i], bn) != 0 ==> FileBlock(b1, i1[i], bn) == FileBlock(b0, i0[i], bn)
  {
  }

  lemma ScannedDone(g: Geometry, bm: seq<Block>, bm': seq<Block>, b0: seq<Block>, i0: seq<Inode>, o0: map<nat, Slot>,
      b1: seq<Block>, i1: seq<Inode>, o1: map<nat, Slot>, dinodes: seq<Inode>, i: nat, off: nat, n: nat)
    requires Owned(g, bm, b0, i0, o0) && Owned(g, bm', b1, i1, o1) && Shadow(dinodes, i0)
    requires Scanned(b0, i0, o0, b1, i1, o1, i, off, n)
    ensures AllSized(b0, i0) && AllSized(b1, i1) && FilesOf(b1, i1) == FilesOf(b0, i0) && WholeKept(b0, i0, b1, i1)
    ensures forall j :: 0 <= j < |i1| && j != i ==> i1[j] == i0[j]
    ensures Shadow(dinodes, i1) && |i1| == |i0| && i < |i0| && |i0[i].addrs| == NDIRECT + 1
    ensures MeetsHole(b0, i0[i], off, n) ==> bm' != bm && g.Valid() && |bm| == g.nbitmap && !Full(g, bm)
    ensures i1[i] == i0[i] <==> AddrsPresent(i0[i], off, n)
  {
    hide Owned, FilesOf, MeetsHole, AddrsPresent, WholeKept;
    ReadSame(b0, i0, o0, b1, i1, o1, i);
    ReadShadow(b0, i0, o0, b1, i1, o1, dinodes, i);
    GrownAddrs(b0, i0, o0, b1, i1, o1, i);
    MapChanges(g, bm, bm', b0, i0, b1, i1, o0, o1, i);
  }

  lemma SecondHole(blocks: seq<Block>, ip: Inode, off: nat, tot: nat, m: nat, n: nat)
    requires WellFormed(blocks, ip) && MeetsHole(blocks, ip, off, tot) && 0 < m && tot + m <= n
    requires (off + tot) % BSIZE + m <= BSIZE && (tot == 0 || (off + tot) % BSIZE == 0)
    requires (off + tot) / BSIZE < MAXFILE && FileBlock(blocks, ip, (off + tot) / BSIZE) == 0
    ensures TwoHoles(blocks, ip, off, n)
  {
    var a: nat :| a < MAXFILE && InRange(off, tot, a) && FileBlock(blocks, ip, a) == 0;
    var b := (off + tot) / BSIZE;
    assert HoleAt(blocks, ip, off, n, a) && HoleAt(blocks, ip, off, n, b) && a < b;
  }

  lemma MeetsMore(blocks: seq<Block>, ip: Inode, off: nat, a: nat, b: nat)
    requires WellFormed(blocks, ip) && a <= b && MeetsHole(blocks, ip, off, a)
    ensures MeetsHole(blocks, ip, off, b)
  {
    var bn: nat :| bn < MAXFILE && InRange(off, a, bn) && FileBlock(blocks, ip, bn) == 0;
    assert InRange(off, b, bn);
  }

  /** No file reads differently, and none has a new hole. */
  lemma ReadSame(b0: seq<Block>, i0: seq<Inode>, o0: map<nat, Slot>, b1: seq<Block>, i1: seq<Inode>, o1: map<nat, Slot>,
      i: nat)
    requires Grown(b0, i0, o0, b1, i1, o1, i) && AllSized(b0, i0)
    ensures AllSized(b1, i1) && FilesOf(b1, i1) == FilesOf(b0, i0) && WholeKept(b0, i0, b1, i1)
    ensures i < |i1| == |i0| && i1[i].size == i0[i].size
    ensures forall j :: 0 <= j < |i1| && j != i ==> i1[j] == i0[j]
  {
    forall j | 0 <= j < |i0|
      ensures Sized(b1, i1[j]) && Content(b1, i1[j]) == Content(b0, i0[j])
      ensures NoHoles(b0, i0[j]) ==> NoHoles(b1, i1[j])
    {
      SameContent(b0, i0, b1, i1, j);
    }
  }

  lemma ReadShadow(b0: seq<Block>, i0: seq<Inode>, o0: map<nat, Slot>, b1: seq<Block>, i1: seq<Inode>,
      o1: map<nat, Slot>,
      dinodes: seq<Inode>, i: nat)
    requires Grown(b0, i0, o0, b1, i1, o1, i) && Shadow(dinodes, i0)
    ensures Shadow(dinodes, i1)
  {
  }

  lemma SameContent(b0: seq<Block>, i0: seq<Inode>, b1: seq<Block>, i1: seq<Inode>, j: nat)
    requires SameData(b0, i0, b1, i1) && KeepsBlocks(b0, i0, b1, i1) && j < |i0| && Sized(b0, i0[j]) &&
      i1[j].size == i0[j].size
    ensures j < |i1| && Sized(b1, i1[j]) && Content(b1, i1[j]) == Content(b0, i0[j])
    ensures NoHoles(b0, i0[j]) ==> NoHoles(b1, i1[j])
  {
    hide FileBlock, FileData;
    forall p | 0 <= p < i0[j].size
      ensures ByteAt(b1, i1[j], p) == ByteAt(b0, i0[j], p)
    {
      assert FileData(b1, i1[j], p / BSIZE) == FileData(b0, i0[j], p / BSIZE);
    }
  }

  /** A block that was taken shows in the free map. */
  lemma MapChanges(g: Geometry, bm: seq<Block>, bm': seq<Block>, blocks: seq<Block>, inodes: seq<Inode>,
      blocks': seq<Block>, inodes': seq<Inode>, o0: map<nat, Slot>, o1: map<nat, Slot>, i: nat)
    requires Owned(g, bm, blocks, inodes, o0) && Owned(g, bm', blocks', inodes', o1) &&
      Grown(blocks, inodes, o0, blocks', inodes', o1, i)
    ensures o1.Keys != o0.Keys ==> bm' != bm && g.Valid() && |bm| == g.nbitmap && !Full(g, bm)
  {
    hide InUse;
    if o1.Keys != o0.Keys {
      var b :| b in o1 && b !in o0;
      assert InUse(bm', b) && !InUse(bm, b);
    }
  }

  lemma ReadChunk(blocks: seq<Block>, inodes: seq<Inode>, i: nat, at: nat, m: nat)
    requires AllSized(blocks, inodes) && i < |inodes| && at % BSIZE + m <= BSIZE && at + m <= inodes[i].size
    requires at / BSIZE < MAXFILE && 0 < FileBlock(blocks, inodes[i], at / BSIZE) < |blocks|
    ensures blocks[FileBlock(blocks, inodes[i], at / BSIZE)][at % BSIZE..at % BSIZE + m] ==
      FilesOf(blocks, inodes)[i][at..at + m]
  {
  }

  lemma Spliced(b0: seq<Block>, ip0: Inode, b1: seq<Block>, ip1: Inode, off: nat, src: seq<byte>)
    requires Sized(b0, ip0) && Sized(b1, ip1) && off <= ip0.size
    requires Patched(b0, ip0, b1, ip1, off, src)
    requires ip1.size == if off + |src| <= ip0.size then ip0.size else off + |src|
    ensures Content(b1, ip1) == Splice(Content(b0, ip0), off, src)
  {
    hide ByteAt, FileBlock;
    var c, d := Splice(Content(b0, ip0), off, src), Content(b1, ip1);
    assert |c| == |d|;
    forall p | 0 <= p < |c|
      ensures c[p] == d[p]
    {
    }
  }

  /** Ownership looks at the addresses of an inode only. */
  lemma SameAddrsKeepOwned(g: Geometry, bm: seq<Block>, blocks: seq<Block>, inodes: seq<Inode>, owner: map<nat, Slot>,
      i: nat, ip: Inode)
    requires Owned(g, bm, blocks, inodes, owner) && i < |inodes| && ip.addrs == inodes[i].addrs
    ensures Owned(g, bm, blocks, inodes[i := ip], owner)
  {
    hide InUse;
    var inodes' := inodes[i := ip];
    assert forall s :: ValidSlot(inodes, s) ==> SlotValue(blocks, inodes', s) == SlotValue(blocks, inodes, s);
  }

  lemma PatchedAnySize(b0: seq<Block>, ip0: Inode, b1: seq<Block>, ip1: Inode, off: nat, src: seq<byte>, size: nat)
    requires Patched(b0, ip0, b1, ip1, off, src)
    ensures Patched(b0, ip0, b1, ip1.(size := size), off, src)
  {
    forall p | 0 <= p < MAXFILE * BSIZE
      ensures ByteAt(b1, ip1.(size := size), p) == ByteAt(b1, ip1, p)
    {
    }
  }

  /** The state after writei's loop and its closing update of the size. */
  lemma WriteDone(b0: seq<Block>, i0: seq<Inode>, b1: seq<Block>, i1: seq<Inode>, i: nat, off: nat, src: seq<byte>)
    requires Progress(b0, i0, b1, i1, i, off, src, |src|) && off + |src| <= MAXFILE * BSIZE
    ensures i < |i1| == |i0| && i1[i].size == i0[i].size && OnlyAddrs(i0, i1, i) && |i0[i].addrs| == NDIRECT + 1
    ensures i1[i].addrs == i0[i].addrs <==> AddrsPresent(i0[i], off, |src|)
    ensures var i2 := i1[i := i1[i].(size := NewSize(i0[i], off, |src|))];
      && AllSized(b0, i0) && AllSized(b1, i2) && WholeKept(b0, i0, b1, i2)
      && FilesOf(b1, i2) == FilesOf(b0, i0)[i := Splice(FilesOf(b0, i0)[i], off, src)]
  {
    hide FileData, FileBlock, ByteAt, Content, NoHoles, Splice, Patched, Covers, KeepsBlocks, OthersKept, Grows,
      AddrsPresent;
    var size := NewSize(i0[i], off, |src|);
    var i2 := i1[i := i1[i].(size := size)];
    assert src[..|src|] == src;
    forall j | 0 <= j < |i2|
      ensures Sized(b1, i2[j]) && (NoHoles(b0, i0[j]) ==> NoHoles(b1, i2[j]))
    {
      StillSized(b0, i0, b1, i1, i, j, size);
      if NoHoles(b0, i0[j]) {
        StillNoHoles(b0, i0, b1, i1, i, j, off, |src|, size);
      }
    }
    PatchedAnySize(b0, i0[i], b1, i1[i], off, src, size);
    Spliced(b0, i0[i], b1, i2[i], off, src);
    forall j | 0 <= j < |i2| && j != i
      ensures Content(b1, i2[j]) == Content(b0, i0[j])
    {
      assert i2[j] == i1[j];
      OthersContent(b0, i0, b1, i1, i, j);
    }
  }

  lemma OthersContent(b0: seq<Block>, i0: seq<Inode>, b1: seq<Block>, i1: seq<Inode>, i: nat, j: nat)
    requires OnlyAddrs(i0, i1, i) && OthersKept(b0, i0, b1, i1, i) && j < |i0| && j != i
    requires Sized(b0, i0[j]) && Sized(b1, i1[j])
    ensures Content(b1, i1[j]) == Content(b0, i0[j])
  {
  }

  lemma StillSized(b0: seq<Block>, i0: seq<Inode>, b1: seq<Block>, i1: seq<Inode>, i: nat, j: nat, size: nat)
    requires i < |i0| && j < |i0| && Sized(b0, i0[j]) && size <= MAXFILE * BSIZE
    requires OnlyAddrs(i0, i1, i) && KeepsBlocks(b0, i0, b1, i1)
    ensures Sized(b1, i1[i := i1[i].(size := size)][j])
  {
  }

  lemma StillNoHoles(b0: seq<Block>, i0: seq<Inode>, b1: seq<Block>, i1: seq<Inode>, i: nat, j: nat, off: nat, n: nat,
      size: nat)
    requires i < |i0| && j < |i0| && off <= i0[i].size && off + n <= MAXFILE * BSIZE
    requires size == if off + n <= i0[i].size then i0[i].size else off + n
    requires NoHoles(b0, i0[j])
    requires OnlyAddrs(i0, i1, i) && KeepsBlocks(b0, i0, b1, i1) && Covers(b1, i1[i], off, n)
    ensures NoHoles(b1, i1[i := i1[i].(size := size)][j])
  {
    var ip := i1[i := i1[i].(size := size)][j];
    forall bn | 0 <= bn < MAXFILE && bn * BSIZE < ip.size
      ensures FileBlock(b1, ip, bn) != 0
    {
      assert FileBlock(b1, ip, bn) == FileBlock(b1, i1[j], bn);
      if bn * BSIZE >= i0[j].size {
        assert InRange(off, n, bn);
      }
    }
  }

  /** Bmap's invisible allocation followed by the copy into the block. */
  lemma AfterChunk(b0: seq<Block>, i0: seq<Inode>, b1: seq<Block>, b2: seq<Block>, i1: seq<Inode>,
      i: nat, off: nat, piece: seq<byte>)
    requires SameData(b0, i0, b1, i1) && KeepsBlocks(b0, i0, b1, i1) && KeepsBlocks(b1, i1, b2, i1)
    requires i < |i1| && off / BSIZE < MAXFILE && off % BSIZE + |piece| <= BSIZE
    requires 0 < FileBlock(b1, i1[i], off / BSIZE) < |b1|
    requires forall j, m :: 0 <= j < |i1| && 0 <= m < MAXFILE ==>
      FileData(b2, i1[j], m) == if j == i && m == off / BSIZE
        then Patch(b1[FileBlock(b1, i1[i], off / BSIZE)], off % BSIZE, piece) else FileData(b1, i1[j], m)
    ensures KeepsBlocks(b0, i0, b2, i1) && OthersKept(b0, i0, b2, i1, i)
    ensures Patched(b0, i0[i], b2, i1[i], off, piece) && |i1[i].addrs| == NDIRECT + 1
  {
    forall p | 0 <= p < MAXFILE * BSIZE
      ensures ByteAt(b2, i1[i], p) == if off <= p < off + |piece| then piece[p - off] else ByteAt(b0, i0[i], p)
    {
      ChunkByte(off, |piece|, p);
      assert FileData(b2, i1[i], p / BSIZE) == FileData(b2, i1[i], p / BSIZE);
    }
  }

  lemma ChunkEnd(at: nat, m: nat)
    requires at % BSIZE + m <= BSIZE
    ensures m == BSIZE - at % BSIZE ==> (at + m) % BSIZE == 0
  {
  }

  lemma ChunkByte(off: nat, n: nat, p: nat)
    requires off % BSIZE + n <= BSIZE
    ensures off <= p < off + n <==> p / BSIZE == off / BSIZE && off % BSIZE <= p % BSIZE < off % BSIZE + n
    ensures off <= p < off + n ==> p % BSIZE - off % BSIZE == p - off
  {
  }

  lemma BitmapBlock(g: Geometry, b: nat)
    requires g.Valid() && b < g.size
    ensures g.bmapstart <= g.bmapstart + b / BPB < g.bmapstart + g.nbitmap
  {
  }

  lemma UnionSize(a: set<nat>, b: set<nat>)
    ensures |a + b| <= |a| + |b|
  {
  }

  lemma SlotsInRange(g: Geometry, bm: seq<Block>, blocks: seq<Block>, inodes: seq<Inode>, owner: map<nat, Slot>, i: nat)
    requires Owned(g, bm, blocks, inodes, owner) && i < |inodes|
    ensures forall k :: 0 <= k < NINDIRECT ==> IndirectEntry(blocks, inodes[i], k) < g.size
  {
    forall k | 0 <= k < NINDIRECT
      ensures IndirectEntry(blocks, inodes[i], k) < g.size
    {
      assert SlotValue(blocks, inodes, Entry(i, k)) == IndirectEntry(blocks, inodes[i], k);
    }
  }

  /** Bit bi of the bitmap block for b is the bit of block b + bi. */
  lemma BitOf(b: nat, bi: nat)
    requires b % BPB == 0 && bi < BPB
    ensures (b + bi) / BPB == b / BPB && (b + bi) % BPB == bi
  {
  }
}
