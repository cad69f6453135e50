/** Inodes, the blocks they hold, and the byte strings those blocks spell. */
module Inodes {
  import opened Blocks
  import opened Bitmap

  const NDIRECT: nat := 12
  const NINDIRECT: nat := 128
  const MAXFILE: nat := 140
  const IPB: nat := 8

  /** Where the parts of the disk are: blocks below nmeta hold the boot block, super block,
      log, inodes and free map. */
  datatype Geometry = Geometry(size: nat, nmeta: nat, inodestart: nat, bmapstart: nat, nbitmap: nat) {
    predicate Valid() {
      0 < nmeta <= size <= nbitmap * BPB && size < WORD
    }
  }

  datatype Inode = Inode(kind: nat, nlink: int, size: nat, addrs: seq<nat>)

  /** The places that can hold a block number: addrs[k] of an inode (k == NDIRECT is the
      indirect block) and the entries of its indirect block. */
  datatype Slot = Direct(inum: nat, k: nat) | Entry(inum: nat, k: nat)

  predicate WellFormed(blocks: seq<Block>, ip: Inode) {
    |ip.addrs| == NDIRECT + 1 && forall k :: 0 <= k <= NDIRECT ==> ip.addrs[k] < |blocks|
  }

  function IndirectEntry(blocks: seq<Block>, ip: Inode, k: nat): nat
    requires WellFormed(blocks, ip) && k < NINDIRECT
  {
    if ip.addrs[NDIRECT] == 0 then 0 else Get32(blocks[ip.addrs[NDIRECT]], 4 * k)
  }

  /** The address of the file's bn-th block, 0 if it has none. */
  function FileBlock(blocks: seq<Block>, ip: Inode, bn: nat): nat
    requires WellFormed(blocks, ip) && bn < MAXFILE
  {
    if bn < NDIRECT then ip.addrs[bn] else IndirectEntry(blocks, ip, bn - NDIRECT)
  }

  /** The contents of the file's bn-th block; a block not yet allocated reads as zeroes. */
  function FileData(blocks: seq<Block>, ip: Inode, bn: nat): Block
    requires WellFormed(blocks, ip) && bn < MAXFILE
  {
    var b := FileBlock(blocks, ip, bn);
    if b == 0 || b >= |blocks| then ZeroBlock() else blocks[b]
  }

  function ByteAt(blocks: seq<Block>, ip: Inode, p: nat): byte
    requires WellFormed(blocks, ip) && p < MAXFILE * BSIZE
  {
    FileData(blocks, ip, p / BSIZE)[p % BSIZE]
  }

  /** No larger than a file can be. */
  predicate Sized(blocks: seq<Block>, ip: Inode) {
    WellFormed(blocks, ip) && ip.size <= MAXFILE * BSIZE
  }

  /** Every block below the end of the file is allocated. */
  predicate NoHoles(blocks: seq<Block>, ip: Inode) {
    && Sized(blocks, ip)
    && forall bn :: 0 <= bn < MAXFILE && bn * BSIZE < ip.size ==> FileBlock(blocks, ip, bn) != 0
  }

  /** The file as a byte string, holes as zeroes. */
  function Content(blocks: seq<Block>, ip: Inode): (c: seq<byte>)
    requires Sized(blocks, ip)
    ensures |c| == ip.size
  {
    seq(ip.size, p requires 0 <= p < ip.size => ByteAt(blocks, ip, p))
  }

  // ---- Who holds which block ----------------------------------------------------

  predicate Shaped(g: Geometry, bm: seq<Block>, blocks: seq<Block>, inodes: seq<Inode>) {
    && g.Valid() && |bm| == g.nbitmap && |blocks| == g.size
    && forall i :: 0 <= i < |inodes| ==> WellFormed(blocks, inodes[i])
  }

  predicate ValidSlot(inodes: seq<Inode>, s: Slot) {
    s.inum < |inodes| && match s case Direct(_, k) => k <= NDIRECT case Entry(_, k) => k < NINDIRECT
  }

  function SlotValue(blocks: seq<Block>, inodes: seq<Inode>, s: Slot): nat
    requires ValidSlot(inodes, s) && WellFormed(blocks, inodes[s.inum])
  {
    match s
    case Direct(i, k) => inodes[i].addrs[k]
    case Entry(i, k) => IndirectEntry(blocks, inodes[i], k)
  }

  /** A non-zero slot is recorded as the owner of the block it names. */
  ghost predicate SlotsOwn(blocks: seq<Block>, inodes: seq<Inode>, owner: map<nat, Slot>)
    requires forall i :: 0 <= i < |inodes| ==> WellFormed(blocks, inodes[i])
  {
    forall s :: ValidSlot(inodes, s) && SlotValue(blocks, inodes, s) != 0 ==>
      SlotValue(blocks, inodes, s) in owner && owner[SlotValue(blocks, inodes, s)] == s
  }

  /** A recorded owner does name the block, and the block is a data block of the disk. */
  ghost predicate OwnersHold(g: Geometry, blocks: seq<Block>, inodes: seq<Inode>, owner: map<nat, Slot>)
    requires forall i :: 0 <= i < |inodes| ==> WellFormed(blocks, inodes[i])
  {
    forall b :: b in owner ==>
      g.nmeta <= b < g.size && ValidSlot(inodes, owner[b]) && SlotValue(blocks, inodes, owner[b]) == b
  }

  /** The free map: a bit is set for exactly the metadata blocks and the owned ones. */
  ghost predicate MapExact(g: Geometry, bm: seq<Block>, owner: map<nat, Slot>)
    requires g.Valid() && |bm| == g.nbitmap
  {
    forall b: nat :: b < g.size ==> (InUse(bm, b) <==> b < g.nmeta || b in owner)
  }

  /** Block ownership: `owner` gives the one slot that holds each data block in use. */
  ghost predicate Owned(g: Geometry, bm: seq<Block>, blocks: seq<Block>, inodes: seq<Inode>, owner: map<nat, Slot>) {
    && Shaped(g, bm, blocks, inodes)
    && SlotsOwn(blocks, inodes, owner)
    && OwnersHold(g, blocks, inodes, owner)
    && MapExact(g, bm, owner)
  }

  /** The meaning of `Owned` without the owner map: no two slots share a block, and a bit is
      set exactly when the block is metadata or is held by a slot. */
  lemma OwnedMeans(g: Geometry, bm: seq<Block>, blocks: seq<Block>, inodes: seq<Inode>, owner: map<nat, Slot>, b: nat)
    requires Owned(g, bm, blocks, inodes, owner) && b < g.size
    ensures InUse(bm, b) <==>
      b < g.nmeta || exists s :: ValidSlot(inodes, s) && SlotValue(blocks, inodes, s) == b && b != 0
    ensures b != 0 ==> forall s, t :: ValidSlot(inodes, s) && ValidSlot(inodes, t) ==>
      SlotValue(blocks, inodes, s) == b && SlotValue(blocks, inodes, t) == b ==> s == t
    ensures b == 0 ==> InUse(bm, b)
  {
  }

  // ---- Everything an operation on one inode must leave alone ----------------------

  /** Every file block of every inode reads as before. */
  ghost predicate SameData(blocks: seq<Block>, inodes: seq<Inode>, blocks': seq<Block>, inodes': seq<Inode>) {
    && |inodes'| == |inodes|
    && (forall i :: 0 <= i < |inodes| ==> WellFormed(blocks, inodes[i]) && WellFormed(blocks', inodes'[i]))
    && (forall i, bn :: 0 <= i < |inodes| && 0 <= bn < MAXFILE ==>
         FileData(blocks', inodes'[i], bn) == FileData(blocks, inodes[i], bn))
  }

  /** Every allocated file block stays where it was. */
  ghost predicate KeepsBlocks(blocks: seq<Block>, inodes: seq<Inode>, blocks': seq<Block>, inodes': seq<Inode>) {
    && |inodes'| == |inodes|
    && (forall i :: 0 <= i < |inodes| ==> WellFormed(blocks, inodes[i]) && WellFormed(blocks', inodes'[i]))
    && (forall i, bn :: 0 <= i < |inodes| && 0 <= bn < MAXFILE && FileBlock(blocks, inodes[i], bn) != 0 ==>
         FileBlock(blocks', inodes'[i], bn) == FileBlock(blocks, inodes[i], bn))
  }

  function SetAddr(inodes: seq<Inode>, i: nat, k: nat, b: nat): seq<Inode>
    requires i < |inodes| && k < |inodes[i].addrs|
  {
    inodes[i := inodes[i].(addrs := inodes[i].addrs[k := b])]
  }

  lemma ZeroEntry(k: nat)
    requires k < NINDIRECT
    ensures Get32(ZeroBlock(), 4 * k) == 0
  {
  }

  // ---- Giving a slot a fresh block, and taking it back ------------------------------

  /** Every slot holds what it held, except that `s0` now holds `v`. */
  ghost predicate SlotsButOne(blocks: seq<Block>, inodes: seq<Inode>, blocks': seq<Block>, inodes': seq<Inode>,
      s0: Slot, v: nat) {
    && |inodes'| == |inodes| && ValidSlot(inodes, s0)
    && (forall i :: 0 <= i < |inodes| ==> WellFormed(blocks, inodes[i]) && WellFormed(blocks', inodes'[i]))
    && (forall s :: ValidSlot(inodes, s) ==>
         SlotValue(blocks', inodes', s) == if s == s0 then v else SlotValue(blocks, inodes, s))
  }

  predicate HoldsData(s: Slot) {
    s.Direct? ==> s.k != NDIRECT
  }

  function SlotOf(i: nat, bn: nat): Slot
    requires bn < MAXFILE
  {
    if bn < NDIRECT then Direct(i, bn) else Entry(i, bn - NDIRECT)
  }

  lemma FileBlockIsSlot(blocks: seq<Block>, inodes: seq<Inode>, i: nat, bn: nat)
    requires i < |inodes| && WellFormed(blocks, inodes[i]) && bn < MAXFILE
    ensures ValidSlot(inodes, SlotOf(i, bn)) && HoldsData(SlotOf(i, bn))
    ensures SlotValue(blocks, inodes, SlotOf(i, bn)) == FileBlock(blocks, inodes[i], bn)
  {
  }

  lemma OwnerGains(g: Geometry, bm: seq<Block>, blocks: seq<Block>, inodes: seq<Inode>, owner: map<nat, Slot>,
      blocks': seq<Block>, inodes': seq<Inode>, s0: Slot, b: nat)
    requires Owned(g, bm, blocks, inodes, owner) && Shaped(g, bm, blocks', inodes')
    requires g.nmeta <= b < g.size && !InUse(bm, b)
    requires SlotsButOne(blocks, inodes, blocks', inodes', s0, b) && SlotValue(blocks, inodes, s0) == 0
    ensures Owned(g, Mark(bm, b), blocks', inodes', owner[b := s0])
  {
    hide InUse, Mark, SlotValue;
    forall c: nat | c < g.size
      ensures InUse(Mark(bm, b), c) <==> c < g.nmeta || c in owner[b := s0]
    {
      MarkReads(bm, b, c);
    }
  }

  lemma OwnerLoses(g: Geometry, bm: seq<Block>, blocks: seq<Block>, inodes: seq<Inode>, owner: map<nat, Slot>,
      blocks': seq<Block>, inodes': seq<Inode>, s0: Slot, b: nat)
    requires Owned(g, bm, blocks, inodes, owner) && Shaped(g, bm, blocks', inodes')
    requires SlotsButOne(blocks, inodes, blocks', inodes', s0, 0) && SlotValue(blocks, inodes, s0) == b != 0
    ensures Owned(g, Clear(bm, b), blocks', inodes', owner - {b})
  {
    hide InUse, Clear, SlotValue;
    forall c: nat | c < g.size
      ensures InUse(Clear(bm, b), c) <==> c < g.nmeta || c in owner - {b}
    {
      ClearReads(bm, b, c);
    }
  }

  /** Allocation is invisible in the files: the new block is zeroed, and a missing block reads
      as zeroes. */
  lemma GrowKeepsData(g: Geometry, bm: seq<Block>, blocks: seq<Block>, inodes: seq<Inode>, owner: map<nat, Slot>,
      blocks': seq<Block>, inodes': seq<Inode>, s0: Slot, b: nat)
    requires Owned(g, bm, blocks, inodes, owner) && Shaped(g, bm, blocks', inodes')
    requires g.nmeta <= b < g.size && blocks'[b] == ZeroBlock()
    requires SlotsButOne(blocks, inodes, blocks', inodes', s0, b) && SlotValue(blocks, inodes, s0) == 0
    requires forall c :: c in owner && HoldsData(owner[c]) ==> blocks'[c] == blocks[c]
    ensures SameData(blocks, inodes, blocks', inodes') && KeepsBlocks(blocks, inodes, blocks', inodes')
  {
    hide SlotValue, FileBlock;
    forall i, bn | 0 <= i < |inodes| && 0 <= bn < MAXFILE
      ensures FileData(blocks', inodes'[i], bn) == FileData(blocks, inodes[i], bn)
      ensures FileBlock(blocks, inodes[i], bn) != 0 ==>
        FileBlock(blocks', inodes'[i], bn) == FileBlock(blocks, inodes[i], bn)
    {
      FileBlockIsSlot(blocks, inodes, i, bn);
      FileBlockIsSlot(blocks', inodes', i, bn);
    }
  }

  /** Slot addrs[k] of inode i takes the zeroed block b. */
  lemma SetDirectSlots(g: Geometry, bm: seq<Block>, blocks: seq<Block>, inodes: seq<Inode>, owner: map<nat, Slot>,
      i: nat, k: nat, b: nat)
    requires Owned(g, bm, blocks, inodes, owner)
    requires i < |inodes| && k <= NDIRECT && inodes[i].addrs[k] == 0
    requires g.nmeta <= b < g.size && b !in owner
    ensures Shaped(g, bm, blocks[b := ZeroBlock()], SetAddr(inodes, i, k, b))
    ensures SlotsButOne(blocks, inodes, blocks[b := ZeroBlock()], SetAddr(inodes, i, k, b), Direct(i, k), b)
  {
    var blocks', inodes' := blocks[b := ZeroBlock()], SetAddr(inodes, i, k, b);
    forall s | ValidSlot(inodes, s)
      ensures SlotValue(blocks', inodes', s) == if s == Direct(i, k) then b else SlotValue(blocks, inodes, s)
    {
      if s.Entry? {
        ZeroEntry(s.k);
        var a := inodes[s.inum].addrs[NDIRECT];
        if a != 0 {
          assert SlotValue(blocks, inodes, Direct(s.inum, NDIRECT)) == a;
          assert a != b;
        }
      }
    }
  }

  lemma GrowDirect(g: Geometry, bm: seq<Block>, blocks: seq<Block>, inodes: seq<Inode>, owner: map<nat, Slot>,
      i: nat, k: nat, b: nat)
    requires Owned(g, bm, blocks, inodes, owner)
    requires i < |inodes| && k <= NDIRECT && inodes[i].addrs[k] == 0
    requires g.nmeta <= b < g.size && !InUse(bm, b)
    ensures var blocks', inodes' := blocks[b := ZeroBlock()], SetAddr(inodes, i, k, b);
      && Owned(g, Mark(bm, b), blocks', inodes', owner[b := Direct(i, k)])
      && SameData(blocks, inodes, blocks', inodes') && KeepsBlocks(blocks, inodes, blocks', inodes')
  {
    hide InUse, Mark, SameData, KeepsBlocks, SlotsButOne;
    var blocks', inodes' := blocks[b := ZeroBlock()], SetAddr(inodes, i, k, b);
    SetDirectSlots(g, bm, blocks, inodes, owner, i, k, b);
    OwnerGains(g, bm, blocks, inodes, owner, blocks', inodes', Direct(i, k), b);
    GrowKeepsData(g, bm, blocks, inodes, owner, blocks', inodes', Direct(i, k), b);
  }

  /** Entry k of the indirect block of inode i takes the zeroed block b. */
  function SetEntry(blocks: seq<Block>, a: nat, k: nat, b: nat): seq<Block>
    requires a < |blocks| && b < |blocks| && k < NINDIRECT && b < WORD
  {
    blocks[b := ZeroBlock()][a := Put32(blocks[a], 4 * k, b)]
  }

  lemma SetEntrySlots(g: Geometry, bm: seq<Block>, blocks: seq<Block>, inodes: seq<Inode>, owner: map<nat, Slot>,
      i: nat, k: nat, b: nat)
    requires Owned(g, bm, blocks, inodes, owner)
    requires i < |inodes| && k < NINDIRECT && inodes[i].addrs[NDIRECT] != 0
    requires g.nmeta <= b < g.size && b !in owner
    ensures SlotsButOne(blocks, inodes, SetEntry(blocks, inodes[i].addrs[NDIRECT], k, b), inodes, Entry(i, k), b)
  {
    var a := inodes[i].addrs[NDIRECT];
    var blocks' := SetEntry(blocks, a, k, b);
    assert SlotValue(blocks, inodes, Direct(i, NDIRECT)) == a;
    forall s | ValidSlot(inodes, s)
      ensures SlotValue(blocks', inodes, s) == if s == Entry(i, k) then b else SlotValue(blocks, inodes, s)
    {
      if s.Entry? && inodes[s.inum].addrs[NDIRECT] != 0 {
        assert SlotValue(blocks, inodes, Direct(s.inum, NDIRECT)) == inodes[s.inum].addrs[NDIRECT];
        if s.inum == i {
          if s.k == k {
            WordRoundTrip(blocks[a], 4 * k, b);
          } else {
            WordFrame(blocks[a], 4 * k, b, 4 * s.k);
          }
        }
      }
    }
  }

  lemma GrowEntry(g: Geometry, bm: seq<Block>, blocks: seq<Block>, inodes: seq<Inode>, owner: map<nat, Slot>,
      i: nat, k: nat, b: nat)
    requires Owned(g, bm, blocks, inodes, owner)
    requires i < |inodes| && k < NINDIRECT && inodes[i].addrs[NDIRECT] != 0
    requires IndirectEntry(blocks, inodes[i], k) == 0
    requires g.nmeta <= b < g.size && !InUse(bm, b)
    ensures var blocks' := SetEntry(blocks, inodes[i].addrs[NDIRECT], k, b);
      && Owned(g, Mark(bm, b), blocks', inodes, owner[b := Entry(i, k)])
      && SameData(blocks, inodes, blocks', inodes) && KeepsBlocks(blocks, inodes, blocks', inodes)
  {
    hide InUse, Mark, SameData, KeepsBlocks, SlotsButOne, Get32, Put32;
    var a := inodes[i].addrs[NDIRECT];
    var blocks' := SetEntry(blocks, a, k, b);
    assert SlotValue(blocks, inodes, Direct(i, NDIRECT)) == a;
    assert a in owner && owner[a] == Direct(i, NDIRECT) && a != b;
    SetEntrySlots(g, bm, blocks, inodes, owner, i, k, b);
    OwnerGains(g, bm, blocks, inodes, owner, blocks', inodes, Entry(i, k), b);
    GrowKeepsData(g, bm, blocks, inodes, owner, blocks', inodes, Entry(i, k), b);
  }

  // ---- Writing a file block -----------------------------------------------------------

  /** Overwriting the file block (i, bn) changes that file block and nothing else. */
  lemma WriteData(g: Geometry, bm: seq<Block>, blocks: seq<Block>, inodes: seq<Inode>, owner: map<nat, Slot>,
      i: nat, bn: nat, v: Block)
    requires Owned(g, bm, blocks, inodes, owner)
    requires i < |inodes| && bn < MAXFILE && FileBlock(blocks, inodes[i], bn) != 0
    ensures FileBlock(blocks, inodes[i], bn) < |blocks|
    ensures var blocks' := blocks[FileBlock(blocks, inodes[i], bn) := v];
      && Owned(g, bm, blocks', inodes, owner)
      && KeepsBlocks(blocks, inodes, blocks', inodes)
      && (forall j, m :: 0 <= j < |inodes| && 0 <= m < MAXFILE ==>
           FileBlock(blocks', inodes[j], m) == FileBlock(blocks, inodes[j], m))
      && (forall j, m :: 0 <= j < |inodes| && 0 <= m < MAXFILE ==>
           FileData(blocks', inodes[j], m) == if j == i && m == bn then v else FileData(blocks, inodes[j], m))
  {
    hide InUse, Get32;
    var b := FileBlock(blocks, inodes[i], bn);
    FileBlockIsSlot(blocks, inodes, i, bn);
    assert b in owner && owner[b] == SlotOf(i, bn);
    var blocks' := blocks[b := v];
    forall s | ValidSlot(inodes, s)
      ensures SlotValue(blocks', inodes, s) == SlotValue(blocks, inodes, s)
    {
      if s.Entry? && inodes[s.inum].addrs[NDIRECT] != 0 {
        assert SlotValue(blocks, inodes, Direct(s.inum, NDIRECT)) == inodes[s.inum].addrs[NDIRECT];
      }
    }
    forall j, m | 0 <= j < |inodes| && 0 <= m < MAXFILE
      ensures FileBlock(blocks', inodes[j], m) == FileBlock(blocks, inodes[j], m)
      ensures FileData(blocks', inodes[j], m) == if j == i && m == bn then v else FileData(blocks, inodes[j], m)
    {
      FileBlockIsSlot(blocks, inodes, j, m);
      FileBlockIsSlot(blocks', inodes, j, m);
    }
  }
}
