/** The program that builds the initial disk image. It hands out blocks in order from a counter
    and writes the free map last, all bits below the counter set. */
module Mkfs {
  import opened Blocks
  import opened Bitmap
  import opened Inodes
  import opened FileSystem
  import opened Wrappers

  const T_DIR: nat := 1
  const T_FILE: nat := 2
  const NINODES: nat := 200
  const ROOTINO: nat := 1
  const DIRSIZ: nat := 14
  /** The size of a directory entry. */
  const DIRENT: nat := 16

  /** A free map of nb blocks whose first n bits are set. */
  function FirstBits(nb: nat, n: nat): (bm: seq<Block>)
    requires n <= nb * BPB
    ensures |bm| == nb
  {
    if n == 0 then seq(nb, i => ZeroBlock()) else Mark(FirstBits(nb, n - 1), n - 1)
  }

  lemma {:induction false} ZeroBit(k: nat)
    ensures !Bit(0, k)
  {
    if k > 0 {
      ZeroBit(k - 1);
    }
  }

  lemma {:induction false} FirstBitsRead(nb: nat, n: nat, b: nat)
    requires n <= nb * BPB && b < nb * BPB
    ensures InUse(FirstBits(nb, n), b) <==> b < n
  {
    hide Bit, Mark;
    if n == 0 {
      ZeroBit(b % BPB % 8);
    } else {
      FirstBitsRead(nb, n - 1, b);
      MarkReads(FirstBits(nb, n - 1), n - 1, b);
    }
  }

  /** Allocated blocks are exactly those below the end of the file, and the indirect block if it is needed
      for them. */
  predicate Tight(blocks: seq<Block>, ip: Inode, end: nat) {
    && WellFormed(blocks, ip) && end <= MAXFILE * BSIZE
    && (forall bn :: 0 <= bn < MAXFILE ==> (FileBlock(blocks, ip, bn) != 0 <==> bn * BSIZE < end))
    && (ip.addrs[NDIRECT] != 0 <==> NDIRECT * BSIZE < end)
  }

  // ---- How many blocks a file needs ------------------------------------------------------------

  /** The blocks of a file of that size, and an indirect block if the direct addresses do not suffice. */
  function Needed(size: nat): nat {
    var n := (size + BSIZE - 1) / BSIZE;
    if n > NDIRECT then n + 1 else n
  }

  lemma NeededMore(a: nat, b: nat)
    requires a <= b
    ensures Needed(a) <= Needed(b)
  {
    var m, n := (a + BSIZE - 1) / BSIZE, (b + BSIZE - 1) / BSIZE;
    assert m <= n;
  }

  /** How many blocks file block bn of an inode lacks. */
  function Missing(blocks: seq<Block>, ip: Inode, bn: nat): nat
    requires WellFormed(blocks, ip) && bn < MAXFILE
  {
    if FileBlock(blocks, ip, bn) != 0 then 0
    else if bn >= NDIRECT && ip.addrs[NDIRECT] == 0 then 2
    else 1
  }

  /** A piece of a block more at the end of a file. */
  lemma NeededChunk(blocks: seq<Block>, ip: Inode, at: nat, m: nat)
    requires Tight(blocks, ip, at) && at / BSIZE < MAXFILE && 0 < m && at % BSIZE + m <= BSIZE
    ensures Needed(at + m) == Needed(at) + Missing(blocks, ip, at / BSIZE)
  {
    var bn := at / BSIZE;
    assert (at + m + BSIZE - 1) / BSIZE == bn + 1;
    assert (at + BSIZE - 1) / BSIZE == if at % BSIZE == 0 then bn else bn + 1;
  }

  lemma NoBits(nb: nat)
    ensures FirstBits(nb, 0) == seq(nb, i => ZeroBlock())
  {
  }

  /** In the first bitmap block, bit i lies in byte i / 8. */
  lemma MarkInFirst(nb: nat, i: nat)
    requires 0 < nb && i < BPB
    ensures var bm := FirstBits(nb, i);
      && WithBit(bm[0][i / 8], i % 8) < 256
      && FirstBits(nb, i + 1) == bm[0 := bm[0][i / 8 := WithBit(bm[0][i / 8], i % 8)]]
  {
    hide WithBit;
    ByteBounds(FirstBits(nb, i)[0][i / 8], i % 8);
  }

  lemma CounterIsFree(g: Geometry, blocks: seq<Block>, inodes: seq<Inode>, owner: map<nat, Slot>, n: nat)
    requires g.Valid() && g.nmeta <= n < g.size && Owned(g, FirstBits(g.nbitmap, n), blocks, inodes, owner)
    ensures !InUse(FirstBits(g.nbitmap, n), n) && n !in owner && |blocks| == g.size
    ensures FirstBits(g.nbitmap, n + 1) == Mark(FirstBits(g.nbitmap, n), n)
    ensures forall i :: 0 <= i < |inodes| ==> |inodes[i].addrs| == NDIRECT + 1
  {
    FirstBitsRead(g.nbitmap, n, n);
  }

  /** No file block but the one in slot s0 has moved, appeared or gone. */
  ghost predicate OnlySlot(b0: seq<Block>, i0: seq<Inode>, b1: seq<Block>, i1: seq<Inode>, s0: Slot) {
    && |i0| == |i1|
    && (forall j :: 0 <= j < |i0| ==> WellFormed(b0, i0[j]) && WellFormed(b1, i1[j]))
    && (forall j, m :: 0 <= j < |i0| && 0 <= m < MAXFILE && SlotOf(j, m) != s0 ==>
         FileBlock(b1, i1[j], m) == FileBlock(b0, i0[j], m))
  }

  lemma SlotsToBlocks(b0: seq<Block>, i0: seq<Inode>, b1: seq<Block>, i1: seq<Inode>, s0: Slot, v: nat)
    requires SlotsButOne(b0, i0, b1, i1, s0, v)
    ensures OnlySlot(b0, i0, b1, i1, s0)
  {
    hide FileBlock, SlotValue;
    forall j, m | 0 <= j < |i0| && 0 <= m < MAXFILE && SlotOf(j, m) != s0
      ensures FileBlock(b1, i1[j], m) == FileBlock(b0, i0[j], m)
    {
      FileBlockIsSlot(b0, i0, j, m);
      FileBlockIsSlot(b1, i1, j, m);
    }
  }

  /** An inode that holds nothing. */
  function Blank(kind: nat, nlink: int): Inode {
    Inode(kind, nlink, 0, seq(NDIRECT + 1, k => 0))
  }

  /** What an inode is for, and its links. */
  datatype Kind = Kind(kind: nat, nlink: int)

  function Kinds(inodes: seq<Inode>): (ks: seq<Kind>)
    ensures |ks| == |inodes|
  {
    seq(|inodes|, i requires 0 <= i < |inodes| => Kind(inodes[i].kind, inodes[i].nlink))
  }

  lemma KindsSame(a: seq<Inode>, b: seq<Inode>)
    requires |a| == |b| && forall i :: 0 <= i < |a| ==> a[i].kind == b[i].kind && a[i].nlink == b[i].nlink
    ensures Kinds(a) == Kinds(b)
  {
  }

  /** The root and the first k files. */
  function KindsSoFar(k: nat): (ks: seq<Kind>)
    ensures |ks| == NINODES
  {
    seq(NINODES, i => if i == ROOTINO then Kind(T_DIR, 1) else if 2 <= i < 2 + k then Kind(T_FILE, 1) else Kind(0, 0))
  }

  lemma KindsSeen(i0: seq<Inode>, i1: seq<Inode>, k: nat)
    requires Kinds(i0) == KindsSoFar(k) && |i1| == |i0| && 2 + k <= NINODES
    requires forall i :: 0 <= i < |i1| ==> i1[i].kind == i0[i].kind && i1[i].nlink == i0[i].nlink
    ensures i1[ROOTINO].kind == T_DIR && i1[ROOTINO].nlink == 1
    ensures forall i :: 2 <= i < 2 + k ==> i1[i].kind == T_FILE && i1[i].nlink == 1
    ensures forall i :: 0 <= i < NINODES && i != ROOTINO && !(2 <= i < 2 + k) ==> i1[i].kind == 0 && i1[i].nlink == 0
  {
    KindsSame(i0, i1);
    forall i | 0 <= i < NINODES
      ensures Kind(i1[i].kind, i1[i].nlink) == KindsSoFar(k)[i]
    {
      assert Kinds(i1)[i] == KindsSoFar(k)[i];
    }
  }

  lemma KindsNext(k: nat)
    requires 2 + k < NINODES
    ensures KindsSoFar(k + 1) == KindsSoFar(k)[2 + k := Kind(T_FILE, 1)]
  {
  }

  /** Nothing follows the end of the file, in the blocks it holds or elsewhere. */
  ghost predicate Clean(blocks: seq<Block>, ip: Inode) {
    WellFormed(blocks, ip) && forall p :: ip.size <= p < MAXFILE * BSIZE ==> ByteAt(blocks, ip, p) == 0
  }

  /** A file for the image: its path and its contents. */
  datatype NewFile = NewFile(path: seq<byte>, data: seq<byte>)

  function Zeros(n: nat): (z: seq<byte>)
    ensures |z| == n
  {
    seq(n, i => 0)
  }

  /** What strncpy leaves of a name in the DIRSIZ bytes of an entry. */
  function Field(name: seq<byte>): (f: seq<byte>)
    ensures |f| == DIRSIZ
  {
    if |name| >= DIRSIZ then name[..DIRSIZ] else name + Zeros(DIRSIZ - |name|)
  }

  /** A directory entry: the inode number in two bytes, low byte first, and the name. */
  function Dirent(inum: nat, name: seq<byte>): (d: seq<byte>)
    ensures |d| == DIRENT
  {
    [inum % 256, inum / 256 % 256] + Field(name)
  }

  const DOT: seq<byte> := [46]
  const DOTDOT: seq<byte> := [46, 46]
  const SLASH: byte := 47
  const UNDERSCORE: byte := 95

  /** The name of a file in the image: its path without a leading underscore. */
  function NameOf(path: seq<byte>): seq<byte> {
    if path != [] && path[0] == UNDERSCORE then path[1..] else path
  }

  /** addrs[k] takes the block at the counter n. */
  lemma AddrTaken(g: Geometry, blocks: seq<Block>, inodes: seq<Inode>, owner: map<nat, Slot>, n: nat, i: nat, k: nat)
    requires g.Valid() && g.nmeta <= n < g.size && Owned(g, FirstBits(g.nbitmap, n), blocks, inodes, owner)
    requires i < |inodes| && k <= NDIRECT && inodes[i].addrs[k] == 0 && blocks[n] == ZeroBlock()
    ensures var inodes' := SetAddr(inodes, i, k, n);
      && Owned(g, FirstBits(g.nbitmap, n + 1), blocks, inodes', owner[n := Direct(i, k)])
      && Grown(blocks, inodes, owner, blocks, inodes', owner[n := Direct(i, k)], i)
      && OnlySlot(blocks, inodes, blocks, inodes', Direct(i, k))
  {
    hide SameData, KeepsBlocks, OnlySlot, SlotsButOne, InUse, FirstBits, Mark;
    var bm := FirstBits(g.nbitmap, n);
    CounterIsFree(g, blocks, inodes, owner, n);
    assert blocks[n := ZeroBlock()] == blocks;
    GrowDirect(g, bm, blocks, inodes, owner, i, k, n);
    SetDirectSlots(g, bm, blocks, inodes, owner, i, k, n);
    SlotsToBlocks(blocks, inodes, blocks, SetAddr(inodes, i, k, n), Direct(i, k), n);
  }

  /** Entry k of an indirect block takes the block at the counter n. */
  lemma EntryTaken(g: Geometry, blocks: seq<Block>, inodes: seq<Inode>, owner: map<nat, Slot>, n: nat, i: nat, k: nat)
    requires g.Valid() && g.nmeta <= n < g.size && Owned(g, FirstBits(g.nbitmap, n), blocks, inodes, owner)
    requires i < |inodes| && k < NINDIRECT && inodes[i].addrs[NDIRECT] != 0
    requires IndirectEntry(blocks, inodes[i], k) == 0 && blocks[n] == ZeroBlock()
    ensures inodes[i].addrs[NDIRECT] < n < WORD
    ensures var blocks' := blocks[inodes[i].addrs[NDIRECT] := Put32(blocks[inodes[i].addrs[NDIRECT]], 4 * k, n)];
      && Owned(g, FirstBits(g.nbitmap, n + 1), blocks', inodes, owner[n := Entry(i, k)])
      && IndirectEntry(blocks', inodes[i], k) == n
      && Grown(blocks, inodes, owner, blocks', inodes, owner[n := Entry(i, k)], i)
      && OnlySlot(blocks, inodes, blocks', inodes, Entry(i, k))
  {
    hide SameData, KeepsBlocks, OnlySlot, SlotsButOne, InUse, FirstBits, Mark, Get32, Put32;
    var a, bm := inodes[i].addrs[NDIRECT], FirstBits(g.nbitmap, n);
    CounterIsFree(g, blocks, inodes, owner, n);
    AddrHeld(g, bm, blocks, inodes, owner, i, NDIRECT);
    FirstBitsRead(g.nbitmap, n, a);
    assert blocks[n := ZeroBlock()] == blocks;
    GrowEntry(g, bm, blocks, inodes, owner, i, k, n);
    SetEntrySlots(g, bm, blocks, inodes, owner, i, k, n);
    SlotsToBlocks(blocks, inodes, SetEntry(blocks, a, k, n), inodes, Entry(i, k), n);
    WordRoundTrip(blocks[a], 4 * k, n);
  }

  class Image {
    const g: Geometry
    var blocks: seq<Block>
    var inodes: seq<Inode>
    var freeinode: nat
    var freeblock: nat
    ghost var owner: map<nat, Slot>

    /** Blocks below the counter are metadata or owned, blocks from the counter on are zero. */
    ghost predicate Own()
      reads this
    {
      && g.Valid() && g.nmeta <= freeblock <= g.size
      && Owned(g, FirstBits(g.nbitmap, freeblock), blocks, inodes, owner)
      && forall b :: freeblock <= b < g.size ==> blocks[b] == ZeroBlock()
    }

    ghost predicate Valid()
      reads this
    {
      && Own() && 1 <= freeinode <= |inodes| == NINODES
      && (forall i :: 0 <= i < |inodes| ==> Tight(blocks, inodes[i], inodes[i].size) && Clean(blocks, inodes[i]))
      && (forall i :: freeinode <= i < |inodes| ==> inodes[i] == Blank(0, 0))
    }

    /** The zeroed disk that main starts from. */
    constructor (geometry: Geometry)
      requires geometry.Valid()
      ensures Valid() && g == geometry && freeinode == 1 && freeblock == g.nmeta
      ensures forall i :: 0 <= i < NINODES ==> inodes[i] == Blank(0, 0)
    {
      g := geometry;
      blocks := seq(geometry.size, i => ZeroBlock());
      inodes := seq(NINODES, i => Blank(0, 0));
      freeinode, freeblock, owner := 1, geometry.nmeta, map[];
      new;
      forall b: nat | b < g.size
        ensures InUse(FirstBits(g.nbitmap, g.nmeta), b) <==> b < g.nmeta
      {
        FirstBitsRead(g.nbitmap, g.nmeta, b);
      }
    }

    /** din.addrs[k] = freeblock++ */
    method TakeAddr(i: nat, k: nat) returns (ok: bool)
      requires Own() && i < |inodes| && k <= NDIRECT && inodes[i].addrs[k] == 0
      modifies this`inodes, this`freeblock, this`owner
      ensures ok <==> old(freeblock) < g.size
      ensures ok ==> freeblock == old(freeblock) + 1
      ensures ok ==> Own() && inodes == SetAddr(old(inodes), i, k, old(freeblock)) && old(freeblock) != 0
      ensures ok ==> Grown(blocks, old(inodes), old(owner), blocks, inodes, owner, i)
      ensures ok ==> OnlySlot(blocks, old(inodes), blocks, inodes, Direct(i, k))
    {
      if freeblock == g.size {
        return false;
      }
      hide Grown, OnlySlot, Owned, FirstBits;
      AddrTaken(g, blocks, inodes, owner, freeblock, i, k);
      inodes := inodes[i := inodes[i].(addrs := inodes[i].addrs[k := freeblock])];
      owner := owner[freeblock := Direct(i, k)];
      freeblock := freeblock + 1;
      return true;
    }

    /** indirect[k] = freeblock++, written back to the indirect block */
    method TakeEntry(i: nat, k: nat) returns (ok: bool)
      requires Own() && i < |inodes| && k < NINDIRECT && inodes[i].addrs[NDIRECT] != 0
      requires IndirectEntry(blocks, inodes[i], k) == 0
      modifies this`blocks, this`freeblock, this`owner
      ensures ok <==> old(freeblock) < g.size
      ensures ok ==> freeblock == old(freeblock) + 1
      ensures ok ==> Own() && IndirectEntry(blocks, inodes[i], k) == old(freeblock) != 0
      ensures ok ==> Grown(old(blocks), inodes, old(owner), blocks, inodes, owner, i)
      ensures ok ==> OnlySlot(old(blocks), inodes, blocks, inodes, Entry(i, k))
    {
      if freeblock == g.size {
        return false;
      }
      hide Grown, OnlySlot, Owned, FirstBits, Put32;
      var a := inodes[i].addrs[NDIRECT];
      EntryTaken(g, blocks, inodes, owner, freeblock, i, k);
      blocks := blocks[a := Put32(blocks[a], 4 * k, freeblock)];
      owner := owner[freeblock := Entry(i, k)];
      freeblock := freeblock + 1;
      return true;
    }

    /** The address in entry k of the indirect block, either taken from the counter if missing. */
    method FindEntry(i: nat, k: nat) returns (ok: bool, x: nat)
      requires Own() && i < |inodes| && k < NINDIRECT
      modifies this`blocks, this`inodes, this`freeblock, this`owner
      ensures ok ==>
        Own() && Grown(old(blocks), old(inodes), old(owner), blocks, inodes, owner, i) && |inodes| == |old(inodes)|
      ensures ok ==> 0 < x < |blocks| && IndirectEntry(blocks, inodes[i], k) == x
      ensures ok <==> old(freeblock) + Missing(old(blocks), old(inodes)[i], NDIRECT + k) <= g.size
      ensures ok ==> freeblock == old(freeblock) + Missing(old(blocks), old(inodes)[i], NDIRECT + k)
      ensures ok ==> (inodes[i].addrs == old(inodes)[i].addrs <==> old(inodes)[i].addrs[NDIRECT] != 0)
      ensures ok ==> OnlySlot(old(blocks), old(inodes), blocks, inodes, Entry(i, k))
    {
      GrownNot(g, FirstBits(g.nbitmap, freeblock), blocks, inodes, owner, i);
      hide Grown, SlotsOwn, MapExact, OnlySlot, OwnersHold, FirstBits, Get32;
      NoSlot(blocks, inodes, Entry(i, k));
      if inodes[i].addrs[NDIRECT] == 0 {
        ok := TakeAddr(i, NDIRECT);
        if !ok {
          return false, 0;
        }
        IndirectIsNoFileBlock(old(blocks), old(inodes), blocks, inodes, i, Entry(i, k));
        NewIndirect(old(blocks), old(inodes)[i], blocks, inodes[i], k);
      }
      ghost var b1, o1 := blocks, owner;
      if IndirectEntry(blocks, inodes[i], k) == 0 {
        ok := TakeEntry(i, k);
        if !ok {
          return false, 0;
        }
        GrownTwice(old(blocks), old(inodes), old(owner), b1, inodes, o1, blocks, inodes, owner, i);
        OnlySlotTwice(old(blocks), old(inodes), b1, inodes, blocks, Entry(i, k));
      }
      SlotsInRange(g, FirstBits(g.nbitmap, freeblock), blocks, inodes, owner, i);
      return true, IndirectEntry(blocks, inodes[i], k);
    }

    /** The address of file block bn, taken from the counter if the file has none; as in bmap,
        taking a block shows in no file. */
    method FindBlock(i: nat, bn: nat) returns (ok: bool, x: nat)
      requires Own() && i < |inodes| && bn < MAXFILE
      modifies this`blocks, this`inodes, this`freeblock, this`owner
      ensures ok ==>
        Own() && Grown(old(blocks), old(inodes), old(owner), blocks, inodes, owner, i) && |inodes| == |old(inodes)|
      ensures ok ==> 0 < x < |blocks| && FileBlock(blocks, inodes[i], bn) == x
      ensures ok <==> old(freeblock) + Missing(old(blocks), old(inodes)[i], bn) <= g.size
      ensures ok ==> freeblock == old(freeblock) + Missing(old(blocks), old(inodes)[i], bn)
      ensures ok && bn < NDIRECT ==> inodes[i].addrs[NDIRECT] == old(inodes)[i].addrs[NDIRECT]
      ensures ok ==> (inodes[i].addrs == old(inodes)[i].addrs <==> AddrPresent(old(inodes)[i], bn))
      ensures ok ==> OnlySlot(old(blocks), old(inodes), blocks, inodes, SlotOf(i, bn))
    {
      GrownNot(g, FirstBits(g.nbitmap, freeblock), blocks, inodes, owner, i);
      hide Grown, SlotsOwn, MapExact, OnlySlot, OwnersHold, FirstBits, Get32;
      NoSlot(blocks, inodes, SlotOf(i, bn));
      if bn < NDIRECT {
        if inodes[i].addrs[bn] == 0 {
          ok := TakeAddr(i, bn);
          if !ok {
            return false, 0;
          }
        }
        return true, inodes[i].addrs[bn];
      }
      ok, x := FindEntry(i, bn - NDIRECT);
    }

    /** One turn of iappend's loop. */
    method AppendChunk(i: nat, at: nat, piece: seq<byte>) returns (ok: bool)
      requires Own() && i < |inodes| && 0 < |piece| && at / BSIZE < MAXFILE && at % BSIZE + |piece| <= BSIZE
      requires Tight(blocks, inodes[i], at)
      modifies this`blocks, this`inodes, this`freeblock, this`owner
      ensures ok <==> old(freeblock) + Needed(at + |piece|) <= g.size + Needed(at)
      ensures ok ==> freeblock + Needed(at) == old(freeblock) + Needed(at + |piece|)
      ensures ok ==> OnlyAddrs(old(inodes), inodes, i)
      ensures ok ==> Own() && ChunkStep(old(blocks), old(inodes), blocks, inodes, i, at, piece)
      ensures ok ==> |inodes| == |old(inodes)| && Tight(blocks, inodes[i], at + |piece|)
      ensures ok ==> |old(inodes)[i].addrs| == NDIRECT + 1 && Grows(old(inodes)[i].addrs, inodes[i].addrs)
      ensures ok ==> (inodes[i].addrs == old(inodes)[i].addrs <==> AddrPresent(old(inodes)[i], at / BSIZE))
      ensures ok ==> OnlySlot(old(blocks), old(inodes), blocks, inodes, SlotOf(i, at / BSIZE))
    {
      hide SameData, KeepsBlocks, OnlySlot, Owned, FirstBits, FileBlock, FileData, Patched, OthersKept, Patch, Tight,
        OwnerGrows, Missing, Needed;
      NeededChunk(blocks, inodes[i], at, |piece|);
      TightMeans(blocks, inodes[i], at);
      var x;
      ok, x := FindBlock(i, at / BSIZE);
      if !ok {
        return;
      }
      ghost var b1 := blocks;
      WriteData(g, FirstBits(g.nbitmap, freeblock), blocks, inodes, owner, i, at / BSIZE,
        Patch(blocks[x], at % BSIZE, piece));
      BelowCounter(g, freeblock, blocks, inodes, owner, i, at / BSIZE);
      blocks := blocks[x := Patch(blocks[x], at % BSIZE, piece)];
      AfterChunk(old(blocks), old(inodes), b1, blocks, inodes, i, at, piece);
      OnlySlotThenWrite(old(blocks), old(inodes), b1, inodes, blocks, SlotOf(i, at / BSIZE));
      TightMore(old(blocks), old(inodes), blocks, inodes, i, at, |piece|);
    }

    /** iappend: the file grows by `xp`, every other file stays, and no block is taken that the
        file does not need. `ok` is false exactly where the image has too few blocks left for what the file
        needs, or where the assertion that the file is not too large fails. */
    method Iappend(i: nat, xp: seq<byte>) returns (ok: bool)
      requires Valid() && i < freeinode
      modifies this`blocks, this`inodes, this`freeblock, this`owner
      ensures var off := old(inodes)[i].size;
        && (ok <==> off + |xp| <= MAXFILE * BSIZE && old(freeblock) + Needed(off + |xp|) <= g.size + Needed(off))
        && (ok ==> freeblock + Needed(off) == old(freeblock) + Needed(off + |xp|))
      ensures ok ==>
        Valid() && |inodes| == |old(inodes)| && AllSized(old(blocks), old(inodes)) && AllSized(blocks, inodes)
      ensures ok ==>
        FilesOf(blocks, inodes) == FilesOf(old(blocks), old(inodes))[i := FilesOf(old(blocks), old(inodes))[i] + xp]
      ensures ok ==> forall j :: 0 <= j < |inodes| ==>
        inodes[j].kind == old(inodes)[j].kind && inodes[j].nlink == old(inodes)[j].nlink
    {
      hide Owned, Tight, Clean, FilesOf, Progress, OnlySlot, ChunkStep, NoHoles, FirstBits, Splice, Grows,
        AddrPresent, Sized, Needed;
      var off, tot := inodes[i].size, 0;
      TightIsSized(blocks, inodes);
      ProgressStart(g, FirstBits(g.nbitmap, freeblock), blocks, inodes, owner, i, off, xp);
      while tot < |xp|
        invariant 0 <= tot <= |xp| && (tot == 0 || tot == |xp| || (off + tot) % BSIZE == 0)
        invariant Own() && |inodes| == |old(inodes)|
        invariant Progress(old(blocks), old(inodes), blocks, inodes, i, off, xp, tot)
        invariant Tight(blocks, inodes[i], off + tot)
        invariant OthersTight(blocks, inodes, old(inodes), i)
        invariant freeblock + Needed(off) == old(freeblock) + Needed(off + tot)
      {
        if (off + tot) / BSIZE >= MAXFILE {
          return false;
        }
        var m := if |xp| - tot < BSIZE - (off + tot) % BSIZE then |xp| - tot else BSIZE - (off + tot) % BSIZE;
        ChunkEnd(off + tot, m);
        ghost var b1, i1 := blocks, inodes;
        ok := AppendChunk(i, off + tot, xp[tot..tot + m]);
        if !ok {
          NeededMore(off + tot + m, off + |xp|);
          return;
        }
        OthersStayTight(b1, i1, blocks, inodes, old(inodes), i, (off + tot) / BSIZE);
        ProgressNext(old(blocks), old(inodes), b1, i1, blocks, inodes, i, off, xp, tot, m);
        tot := tot + m;
      }
      AppendDone(old(blocks), old(inodes), blocks, inodes, i, xp);
      TightMeans(blocks, inodes[i], off + |xp|);
      SameAddrsKeepOwned(g, FirstBits(g.nbitmap, freeblock), blocks, inodes, owner, i, inodes[i].(size := off + |xp|));
      inodes := inodes[i := inodes[i].(size := off + |xp|)];
      ok := true;
    }

    /** ialloc: the next inode, empty, with one link; None where the image has no inode left. */
    method Ialloc(kind: nat) returns (r: Option<nat>)
      requires Valid()
      modifies this`inodes, this`freeinode
      ensures r.None? <==> old(freeinode) == NINODES
      ensures r.None? ==> unchanged(this)
      ensures r.Some? ==> Valid() && r.value == old(freeinode) && freeinode == old(freeinode) + 1
      ensures r.Some? ==> r.value < |old(inodes)| && inodes == old(inodes)[r.value := Blank(kind, 1)]
      ensures r.Some? ==> AllSized(blocks, old(inodes)) && AllSized(blocks, inodes)
      ensures r.Some? ==>
        FilesOf(blocks, inodes) == FilesOf(blocks, old(inodes)) && FilesOf(blocks, inodes)[r.value] == []
    {
      hide Owned, FirstBits, Content;
      if freeinode == |inodes| {
        return None;
      }
      var i := freeinode;
      TightIsSized(blocks, inodes);
      SameAddrsKeepOwned(g, FirstBits(g.nbitmap, freeblock), blocks, inodes, owner, i, Blank(kind, 1));
      BlankIsEmpty(blocks, inodes[i], Blank(kind, 1));
      EmptyAlike(blocks, inodes[i], Blank(kind, 1));
      inodes := inodes[i := Blank(kind, 1)];
      TightIsSized(blocks, inodes);
      freeinode := freeinode + 1;
      r := Some(i);
    }

    /** The free map for the blocks handed out; one bitmap block, as the assertion demands. */
    method WriteBitmap() returns (bm: seq<Block>)
      requires Own() && freeblock < BPB
      ensures bm == FirstBits(g.nbitmap, freeblock)
    {
      assert g.nbitmap > 0;
      NoBits(g.nbitmap);
      hide Owned, FirstBits, WithBit;
      bm := seq(g.nbitmap, i => ZeroBlock());
      var i := 0;
      while i < freeblock
        invariant 0 <= i <= freeblock && bm == FirstBits(g.nbitmap, i)
      {
        ByteBounds(bm[0][i / 8], i % 8);
        MarkInFirst(g.nbitmap, i);
        bm := bm[0 := bm[0][i / 8 := WithBit(bm[0][i / 8], i % 8)]];
        i := i + 1;
      }
    }

    /** main's last touch: the size of the root directory is rounded up past its last entry. The
        directory then has zeroes at its end, and is without holes exactly when it did not end on a block
        boundary. */
    method FixRoot(root: nat)
      requires Valid() && root < freeinode && inodes[root].size < MAXFILE * BSIZE
      modifies this`inodes
      ensures Own() && inodes == old(inodes)[root := old(inodes)[root].(size := RoundUp(old(inodes)[root].size))]
      ensures NoHoles(blocks, inodes[root]) <==> old(inodes)[root].size % BSIZE != 0
      ensures Tight(blocks, inodes[root], old(inodes)[root].size)
      ensures AllSized(blocks, old(inodes)) && AllSized(blocks, inodes)
      ensures forall i :: 0 <= i < |inodes| && i != root ==> NoHoles(blocks, inodes[i])
      ensures FilesOf(blocks, inodes) ==
        FilesOf(blocks, old(inodes))[root := Rounded(FilesOf(blocks, old(inodes))[root])]
    {
      hide Owned, FirstBits;
      var size := (inodes[root].size / BSIZE + 1) * BSIZE;
      TightIsSized(blocks, inodes);
      SameAddrsKeepOwned(g, FirstBits(g.nbitmap, freeblock), blocks, inodes, owner, root, inodes[root].(size := size));
      RoundedUp(blocks, inodes[root]);
      RoundedContent(blocks, inodes[root]);
      TightAnySize(blocks, inodes[root], inodes[root].size, size);
      inodes := inodes[root := inodes[root].(size := size)];
    }

    ghost function Files(): (fs: seq<seq<byte>>)
      reads this
      requires Valid()
      ensures |fs| == |inodes|
    {
      TightIsSized(blocks, inodes);
      FilesOf(blocks, inodes)
    }

    /** Copies a file in, one buffer of at most BSIZE bytes at a time. */
    method CopyIn(i: nat, data: seq<byte>) returns (ok: bool)
      requires Valid() && i < freeinode && Files()[i] == []
      modifies this`blocks, this`inodes, this`freeblock, this`owner
      ensures ok <==> |data| <= MAXFILE * BSIZE && old(freeblock) + Needed(|data|) <= g.size
      ensures ok ==> freeblock == old(freeblock) + Needed(|data|)
      ensures ok ==> Valid() && |inodes| == |old(inodes)| && Files() == old(Files())[i := data]
      ensures ok ==> Kinds(inodes) == Kinds(old(inodes))
    {
      FilesAre(i);
      assert Needed(0) == 0 && data[..0] == [];
      assert old(Files())[i := []] == old(Files());
      hide Valid, Files, Needed, FilesOf, Kinds;
      var p := 0;
      while p < |data|
        invariant 0 <= p <= |data| && Copied(i, old(Files()), old(freeblock), data, p)
        invariant Kinds(inodes) == Kinds(old(inodes))
      {
        ok := CopyNext(i, old(Files()), old(freeblock), data, p);
        if !ok {
          return;
        }
        p := if |data| - p < BSIZE then |data| else p + BSIZE;
      }
      assert data[..p] == data;
      ok := true;
    }

    /** The first p bytes of the file have been copied in. */
    ghost predicate Copied(i: nat, before: seq<seq<byte>>, start: nat, data: seq<byte>, p: nat)
      reads this
    {
      && Valid() && i < |inodes| == |before| && i < freeinode && p <= |data| && p <= MAXFILE * BSIZE
      && Files() == before[i := data[..p]] && freeblock == start + Needed(p) <= g.size
    }

    /** One buffer of it. */
    method CopyNext(i: nat, ghost before: seq<seq<byte>>, ghost start: nat, data: seq<byte>, p: nat) returns (ok: bool)
      requires Copied(i, before, start, data, p) && p < |data|
      modifies this`blocks, this`inodes, this`freeblock, this`owner
      ensures ok ==> Copied(i, before, start, data, if |data| - p < BSIZE then |data| else p + BSIZE)
      ensures !ok ==> |data| > MAXFILE * BSIZE || start + Needed(|data|) > g.size
      ensures ok ==> Kinds(inodes) == Kinds(old(inodes))
    {
      hide Own, Tight, Clean, Needed, FilesOf, Kinds;
      var cc := if |data| - p < BSIZE then |data| - p else BSIZE;
      NeededMore(p + cc, |data|);
      FilesAre(i);
      ok := Iappend(i, data[p..p + cc]);
      if ok {
        FilesAre(i);
        KindsSame(inodes, old(inodes));
        assert data[..p] + data[p..p + cc] == data[..p + cc];
      }
    }

    lemma FilesAre(i: nat)
      requires Valid() && i < |inodes|
      ensures AllSized(blocks, inodes) && Files() == FilesOf(blocks, inodes)
      ensures |Files()[i]| == inodes[i].size <= MAXFILE * BSIZE
    {
      TightIsSized(blocks, inodes);
      FileLength(blocks, inodes, i);
    }

    /** One turn of main's loop: an inode for the file, its entry in the root, its contents. */
    method AddFile(root: nat, file: NewFile) returns (ok: bool)
      requires Valid() && root < freeinode && SLASH !in file.path
      modifies this
      ensures var r := |old(Files())[root]|;
        && (ok <==>
          && old(freeinode) < NINODES && r + DIRENT <= MAXFILE * BSIZE && |file.data| <= MAXFILE * BSIZE
          && old(freeblock) + Needed(r + DIRENT) + Needed(|file.data|) <= g.size + Needed(r))
        && (ok ==> freeblock + Needed(r) == old(freeblock) + Needed(r + DIRENT) + Needed(|file.data|))
      ensures ok ==> Valid() && old(freeinode) < NINODES && freeinode == old(freeinode) + 1
      ensures ok ==> Files() == old(Files())
        [root := old(Files())[root] + Dirent(old(freeinode), NameOf(file.path))][old(freeinode) := file.data]
      ensures ok ==> Kinds(inodes) == Kinds(old(inodes))[old(freeinode) := Kind(T_FILE, 1)]
    {
      hide Tight, FilesOf, Content, NoHoles, Owned, FirstBits, Sized, Clean, Dirent, Needed;
      var inum := Ialloc(T_FILE);
      if inum.None? {
        return false;
      }
      FileLength(blocks, inodes, root);
      ghost var i1 := inodes;
      assert Kinds(i1) == Kinds(old(inodes))[old(freeinode) := Kind(T_FILE, 1)];
      ok := Iappend(root, Dirent(inum.value, NameOf(file.path)));
      if !ok {
        return;
      }
      KindsSame(inodes, i1);
      ok := CopyIn(inum.value, file.data);
    }

    /** The start of main: the root directory with its two dot entries. */
    method StartRoot() returns (ok: bool)
      requires Valid() && freeinode == 1
      requires forall i :: 0 <= i < |inodes| ==> inodes[i] == Blank(0, 0)
      modifies this
      ensures ok <==> old(freeblock) + Needed(2 * DIRENT) <= g.size
      ensures ok ==> freeblock == old(freeblock) + Needed(2 * DIRENT)
      ensures ok ==> Valid() && freeinode == 2
      ensures ok ==> Files() == seq(NINODES, i => [])[ROOTINO := Dirent(ROOTINO, DOT) + Dirent(ROOTINO, DOTDOT)]
      ensures ok ==> Kinds(inodes) == KindsSoFar(0)
    {
      hide Tight, FilesOf, Content, NoHoles, Owned, FirstBits, Sized, Clean, Dirent;
      NothingYet();
      var root := Ialloc(T_DIR);
      FileLength(blocks, inodes, root.value);
      ok := Iappend(root.value, Dirent(ROOTINO, DOT));
      if !ok {
        return;
      }
      FileLength(blocks, inodes, root.value);
      assert Files()[ROOTINO] == [] + Dirent(ROOTINO, DOT) == Dirent(ROOTINO, DOT);
      ok := Iappend(root.value, Dirent(ROOTINO, DOTDOT));
      assert ok ==> Kinds(inodes) == KindsSoFar(0);
    }

    /** main's loop over the files. */
    method AddFiles(files: seq<NewFile>, ghost start: nat) returns (ok: bool)
      requires Added(files, 0, start)
      modifies this
      ensures ok ==> Acceptable(files) && Added(files, |files|, start)
      ensures !ok ==> |files| + 2 > NINODES || !Acceptable(files) || start + Total(files, |files|) > g.size
    {
      hide Added, Accepted, Total;
      var k := 0;
      while k < |files|
        invariant 0 <= k <= |files| && Added(files, k, start)
        invariant forall j :: 0 <= j < k ==> Accepted(files[j])
      {
        ok := AddNext(files, k, start);
        if !ok {
          return;
        }
        k := k + 1;
      }
      ok := true;
    }

    /** The first k files are in, and the counter stands where it should. */
    ghost predicate Added(files: seq<NewFile>, k: nat, start: nat)
      reads this
      requires k <= |files|
    {
      && Valid() && freeinode == 2 + k <= NINODES && Files() == FilesSoFar(files, k)
      && freeblock == start + Total(files, k) <= g.size && Kinds(inodes) == KindsSoFar(k)
    }

    /** One turn of that loop. */
    method AddNext(files: seq<NewFile>, k: nat, ghost start: nat) returns (ok: bool)
      requires k < |files| && Added(files, k, start)
      modifies this
      ensures ok ==> Accepted(files[k]) && Added(files, k + 1, start)
      ensures !ok ==>
        !Accepted(files[k]) || |files| + 2 > NINODES || start + Total(files, |files|) > g.size
    {
      RootSize(files, k);
      TotalNext(files, k);
      if SLASH in files[k].path {
        return false;
      }
      hide FilesSoFar, FilesOf, Dirent, Needed, Total, Own, Tight, Clean, Kinds, KindsSoFar;
      ok := AddFile(ROOTINO, files[k]);
      if ok {
        KindsNext(k);
        FilesNext(files, k);
      }
    }

    /** The end of main: the root's size and the free map. */
    method Finish(files: seq<NewFile>) returns (bm: seq<Block>)
      requires Valid() && freeinode == |files| + 2 && freeblock < BPB
      requires Files() == FilesSoFar(files, |files|) && |Dirents(files, |files|)| == DIRENT * (|files| + 2)
      modifies this`inodes
      ensures Owned(g, bm, blocks, inodes, owner) && |inodes| == NINODES && bm == FirstBits(g.nbitmap, freeblock)
      ensures AllSized(blocks, inodes) && FilesOf(blocks, inodes) == ImageFiles(files)
      ensures forall i :: 0 <= i < |inodes| && i != ROOTINO ==> NoHoles(blocks, inodes[i])
      ensures NoHoles(blocks, inodes[ROOTINO]) <==> (|files| + 2) % 32 != 0
      ensures Tight(blocks, inodes[ROOTINO], DIRENT * (|files| + 2))
      ensures forall i :: 0 <= i < |inodes| ==>
        inodes[i].kind == old(inodes)[i].kind && inodes[i].nlink == old(inodes)[i].nlink
    {
      hide Tight, Dirents, FilesOf, Content, NoHoles, Owned, FirstBits, Sized, Clean, Dirent;
      TightIsSized(blocks, inodes);
      FileLength(blocks, inodes, ROOTINO);
      FixRoot(ROOTINO);
      AllFiles(files);
      bm := WriteBitmap();
    }

    /** main: the root directory with its two dot entries, then the files. It succeeds exactly for files that
        an image can hold. The image it leaves satisfies block ownership
        with the bitmap it writes, every inode's file is what it should be, and no inode but perhaps the
        root has a hole; the root has one exactly when its entries, the dots included, are a multiple of 32. */
    method Build(files: seq<NewFile>) returns (ok: bool, bm: seq<Block>)
      requires Valid() && freeinode == 1
      requires forall i :: 0 <= i < |inodes| ==> inodes[i] == Blank(0, 0)
      modifies this
      ensures ok <==> CanBuild(g, old(freeblock), files)
      ensures ok ==> freeblock == old(freeblock) + Total(files, |files|) && bm == FirstBits(g.nbitmap, freeblock)
      ensures ok ==> Owned(g, bm, blocks, inodes, owner) && |inodes| == NINODES && |files| + 2 <= NINODES
      ensures ok ==> AllSized(blocks, inodes) && FilesOf(blocks, inodes) == ImageFiles(files)
      ensures ok ==> forall i :: 0 <= i < |inodes| && i != ROOTINO ==> NoHoles(blocks, inodes[i])
      ensures ok ==> (NoHoles(blocks, inodes[ROOTINO]) <==> (|files| + 2) % 32 != 0)
      ensures ok ==> Tight(blocks, inodes[ROOTINO], DIRENT * (|files| + 2))
      ensures ok ==> inodes[ROOTINO].kind == T_DIR && inodes[ROOTINO].nlink == 1
      ensures ok ==> forall i :: 2 <= i < 2 + |files| ==> inodes[i].kind == T_FILE && inodes[i].nlink == 1
      ensures ok ==> forall i :: 0 <= i < NINODES && i != ROOTINO && !(2 <= i < 2 + |files|) ==>
        inodes[i].kind == 0 && inodes[i].nlink == 0
    {
      hide Own, Tight, FilesOf, FilesSoFar, NoHoles, Owned, FirstBits, Sized, Clean, Dirent, Needed, Total,
        Acceptable, Kinds, KindsSoFar;
      bm := [];
      TotalStart(files);
      FilesFirst(files);
      ok := StartRoot();
      if !ok {
        return;
      }
      ok := AddFiles(files, old(freeblock));
      if !ok {
        return;
      }
      if freeblock >= BPB {
        return false, bm;
      }
      RootSize(files, |files|);
      ghost var i1 := inodes;
      bm := Finish(files);
      KindsSeen(i1, inodes, |files|);
      ok := true;
    }

    /** A disk of blank inodes has only empty files. */
    lemma NothingYet()
      requires Valid() && forall i :: 0 <= i < |inodes| ==> inodes[i] == Blank(0, 0)
      ensures AllSized(blocks, inodes) && FilesOf(blocks, inodes) == seq(NINODES, i => [])
    {
      TightIsSized(blocks, inodes);
    }
  }

  // ---- What an image can hold ----------------------------------------------------------------

  /** The blocks that the contents of the first k files need. */
  function DataBlocks(files: seq<NewFile>, k: nat): nat
    requires k <= |files|
  {
    if k == 0 then 0 else DataBlocks(files, k - 1) + Needed(|files[k - 1].data|)
  }

  /** The blocks that they and the root directory need. */
  function Total(files: seq<NewFile>, k: nat): nat
    requires k <= |files|
  {
    Needed(DIRENT * (2 + k)) + DataBlocks(files, k)
  }

  /** Not too large, and a name without a slash. */
  predicate Accepted(file: NewFile) {
    |file.data| <= MAXFILE * BSIZE && SLASH !in file.path
  }

  predicate Acceptable(files: seq<NewFile>) {
    forall k :: 0 <= k < |files| ==> Accepted(files[k])
  }

  /** The files fit an image whose first free block is `start`: no name has a slash, there are inodes and
      blocks enough, no file is too large, and one bitmap block covers what is used. */
  predicate CanBuild(g: Geometry, start: nat, files: seq<NewFile>) {
    && |files| + 2 <= NINODES
    && Acceptable(files)
    && start + Total(files, |files|) <= g.size && start + Total(files, |files|) < BPB
  }

  lemma {:induction false} TotalMore(files: seq<NewFile>, k: nat, n: nat)
    requires k <= n <= |files|
    ensures Total(files, k) <= Total(files, n)
    decreases n - k
  {
    if k < n {
      NeededMore(DIRENT * (2 + k), DIRENT * (3 + k));
      TotalMore(files, k + 1, n);
    }
  }

  lemma TotalStart(files: seq<NewFile>)
    ensures Total(files, 0) == Needed(2 * DIRENT) <= Total(files, |files|)
  {
    TotalMore(files, 0, |files|);
  }

  lemma TotalNext(files: seq<NewFile>, k: nat)
    requires k < |files|
    ensures var r := DIRENT * (2 + k);
      Total(files, k + 1) + Needed(r) == Total(files, k) + Needed(r + DIRENT) + Needed(|files[k].data|)
    ensures Total(files, k + 1) <= Total(files, |files|)
  {
    TotalMore(files, k + 1, |files|);
    assert DIRENT * (2 + (k + 1)) == DIRENT * (2 + k) + DIRENT;
  }

  // ---- What the image holds ----------------------------------------------------------------

  /** The root directory's entries for the dots and the first k files. */
  function Dirents(files: seq<NewFile>, k: nat): seq<byte>
    requires k <= |files|
  {
    if k == 0 then Dirent(ROOTINO, DOT) + Dirent(ROOTINO, DOTDOT)
    else Dirents(files, k - 1) + Dirent(1 + k, NameOf(files[k - 1].path))
  }

  /** The files of all inodes when k files have been added. */
  function FilesSoFar(files: seq<NewFile>, k: nat): (fs: seq<seq<byte>>)
    requires k <= |files| && k + 2 <= NINODES
    ensures |fs| == NINODES
  {
    seq(NINODES, i => if i == ROOTINO then Dirents(files, k) else if 2 <= i < 2 + k then files[i - 2].data else [])
  }

  lemma FilesFirst(files: seq<NewFile>)
    ensures FilesSoFar(files, 0) ==
      seq(NINODES, i => [])[ROOTINO := Dirent(ROOTINO, DOT) + Dirent(ROOTINO, DOTDOT)]
  {
    hide Dirent;
    assert Dirents(files, 0) == Dirent(ROOTINO, DOT) + Dirent(ROOTINO, DOTDOT);
  }

  lemma {:induction false} RootSize(files: seq<NewFile>, k: nat)
    requires k <= |files| && k + 2 <= NINODES
    ensures FilesSoFar(files, k)[ROOTINO] == Dirents(files, k) && |Dirents(files, k)| == DIRENT * (2 + k)
  {
    if k > 0 {
      RootSize(files, k - 1);
    }
  }

  lemma FilesNext(files: seq<NewFile>, k: nat)
    requires k < |files| && k + 3 <= NINODES
    ensures var fs := FilesSoFar(files, k);
      FilesSoFar(files, k + 1) ==
        fs[ROOTINO := fs[ROOTINO] + Dirent(2 + k, NameOf(files[k].path))][2 + k := files[k].data]
  {
    hide Dirent, NameOf;
    assert Dirents(files, k + 1) == Dirents(files, k) + Dirent(2 + k, NameOf(files[k].path));
  }

  function RoundUp(size: nat): (r: nat)
    ensures size < r <= size + BSIZE && r % BSIZE == 0
  {
    (size / BSIZE + 1) * BSIZE
  }

  /** A file with its size rounded up. */
  function Rounded(c: seq<byte>): seq<byte> {
    c + Zeros(RoundUp(|c|) - |c|)
  }

  /** The files of the finished image: the root has an entry for each dot and each file, then free ones. */
  function ImageFiles(files: seq<NewFile>): (fs: seq<seq<byte>>)
    requires |files| + 2 <= NINODES
    ensures |fs| == NINODES
  {
    FilesSoFar(files, |files|)[ROOTINO := Rounded(Dirents(files, |files|))]
  }

  lemma AllFiles(files: seq<NewFile>)
    requires |files| + 2 <= NINODES
    ensures FilesSoFar(files, |files|)[ROOTINO] == Dirents(files, |files|)
  {
  }

  /** The inode number and the name field of entry k of a directory. */
  function EntryInum(dir: seq<byte>, k: nat): nat
    requires DIRENT * (k + 1) <= |dir|
  {
    dir[DIRENT * k] as int + 256 * (dir[DIRENT * k + 1] as int)
  }

  function EntryName(dir: seq<byte>, k: nat): seq<byte>
    requires DIRENT * (k + 1) <= |dir|
  {
    dir[DIRENT * k + 2..DIRENT * (k + 1)]
  }

  /** One more entry. */
  lemma EntryAppended(d: seq<byte>, n: nat, inum: nat, name: seq<byte>, k: nat)
    requires |d| == DIRENT * n && k <= n && inum < 65536
    ensures var all := d + Dirent(inum, name);
      && EntryInum(all, k) == (if k < n then EntryInum(d, k) else inum)
      && EntryName(all, k) == if k < n then EntryName(d, k) else Field(name)
  {
    hide Field;
    var e := Dirent(inum, name);
    if k == n {
      assert (d + e)[DIRENT * n] == e[0] && (d + e)[DIRENT * n + 1] == e[1];
      assert EntryName(d + e, n) == e[2..] == Field(name);
    } else {
      assert EntryName(d + e, k) == EntryName(d, k);
    }
  }

  lemma {:induction false} EntriesRead(files: seq<NewFile>, n: nat, k: nat)
    requires n <= |files| && n + 2 <= NINODES && k < n + 2
    ensures |Dirents(files, n)| == DIRENT * (n + 2)
    ensures EntryInum(Dirents(files, n), k) == if k < 2 then ROOTINO else k
    ensures EntryName(Dirents(files, n), k) == Field(if k == 0 then DOT else if k == 1 then DOTDOT
      else NameOf(files[k - 2].path))
  {
    hide Field, EntryInum, EntryName, Dirent, NameOf;
    if n > 0 {
      EntriesRead(files, n - 1, if k < n + 1 then k else 0);
      EntryAppended(Dirents(files, n - 1), n + 1, 1 + n, NameOf(files[n - 1].path), k);
    } else {
      EntryAppended([], 0, ROOTINO, DOT, 0);
      assert [] + Dirent(ROOTINO, DOT) == Dirent(ROOTINO, DOT);
      EntryAppended(Dirent(ROOTINO, DOT), 1, ROOTINO, DOTDOT, k);
    }
  }

  /** Entries are read where they stand, and zeroes as free ones. */
  lemma EntryBefore(d: seq<byte>, z: seq<byte>, k: nat)
    requires |d| % DIRENT == 0 && DIRENT * (k + 1) <= |d + z| && forall i :: 0 <= i < |z| ==> z[i] == 0
    ensures DIRENT * (k + 1) <= |d| ==> EntryInum(d + z, k) == EntryInum(d, k) && EntryName(d + z, k) == EntryName(d, k)
    ensures DIRENT * (k + 1) > |d| ==> EntryInum(d + z, k) == 0
  {
    if DIRENT * (k + 1) <= |d| {
      assert EntryName(d + z, k) == EntryName(d, k);
    }
  }

  /** Read as a directory, the root of the image names itself twice, then each file under its name by the
      inode that holds it; the entries after those are free. */
  lemma RootReads(files: seq<NewFile>, k: nat)
    requires |files| + 2 <= NINODES && DIRENT * (k + 1) <= |ImageFiles(files)[ROOTINO]|
    ensures var root := ImageFiles(files)[ROOTINO];
      if k < |files| + 2 then
        && EntryInum(root, k) == (if k < 2 then ROOTINO else k)
        && EntryName(root, k) == Field(if k == 0 then DOT else if k == 1 then DOTDOT else NameOf(files[k - 2].path))
        && (k >= 2 ==> ImageFiles(files)[EntryInum(root, k)] == files[k - 2].data)
      else EntryInum(root, k) == 0
  {
    hide Dirents, Field;
    var root, d := ImageFiles(files)[ROOTINO], Dirents(files, |files|);
    EntriesRead(files, |files|, if k < |files| + 2 then k else 0);
    EntryBefore(d, Zeros(RoundUp(|d|) - |d|), k);
  }

  /** The name that stands in entry k: a dot, two dots, or a path without a leading underscore; the first fourteen
      bytes of it, with zeroes after a shorter one. */
  lemma RootNames(files: seq<NewFile>, k: nat, j: nat)
    requires k < |files| + 2 <= NINODES && DIRENT * (k + 1) <= |ImageFiles(files)[ROOTINO]| && j < 14
    ensures
      var name := if k == 0 then [46] else if k == 1 then [46, 46]
        else if files[k - 2].path != [] && files[k - 2].path[0] == 95 then files[k - 2].path[1..]
        else files[k - 2].path;
      ImageFiles(files)[ROOTINO][16 * k + 2 + j] == if j < |name| then name[j] else 0
  {
    hide Dirents, ImageFiles;
    RootReads(files, k);
    assert ImageFiles(files)[ROOTINO][16 * k + 2 + j] == EntryName(ImageFiles(files)[ROOTINO], k)[j];
  }

  lemma EmptyAlike(blocks: seq<Block>, ip: Inode, ip': Inode)
    requires Clean(blocks, ip) && ip.size == ip'.size == 0 && ip.addrs == ip'.addrs
    ensures Clean(blocks, ip')
  {
    forall p | 0 <= p < MAXFILE * BSIZE
      ensures ByteAt(blocks, ip', p) == ByteAt(blocks, ip, p)
    {
    }
  }

  lemma RoundedContent(blocks: seq<Block>, ip: Inode)
    requires Sized(blocks, ip) && Clean(blocks, ip) && ip.size < MAXFILE * BSIZE
    ensures var ip' := ip.(size := RoundUp(ip.size));
      Sized(blocks, ip') && Content(blocks, ip') == Rounded(Content(blocks, ip))
  {
    var ip' := ip.(size := RoundUp(ip.size));
    forall p | 0 <= p < ip'.size
      ensures ByteAt(blocks, ip', p) == Rounded(Content(blocks, ip))[p]
    {
      assert ByteAt(blocks, ip', p) == ByteAt(blocks, ip, p);
    }
  }

  lemma BlankIsEmpty(blocks: seq<Block>, ip: Inode, ip': Inode)
    requires Tight(blocks, ip, 0) && ip.addrs == ip'.addrs
    ensures Tight(blocks, ip', 0)
  {
    assert forall bn :: 0 <= bn < MAXFILE ==> FileBlock(blocks, ip', bn) == FileBlock(blocks, ip, bn);
  }

  /** Rounding the size up to the next block boundary opens a hole exactly when the file ended on
      a boundary already. */
  lemma RoundedUp(blocks: seq<Block>, ip: Inode)
    requires Tight(blocks, ip, ip.size)
    ensures NoHoles(blocks, ip.(size := RoundUp(ip.size))) <==> ip.size % BSIZE != 0
  {
    var bn := ip.size / BSIZE;
    var ip' := ip.(size := (bn + 1) * BSIZE);
    assert forall m :: 0 <= m < MAXFILE ==> FileBlock(blocks, ip', m) == FileBlock(blocks, ip, m);
    if ip.size % BSIZE == 0 && bn < MAXFILE {
      assert bn * BSIZE == ip.size;
      assert FileBlock(blocks, ip', bn) == 0;
    }
    if ip.size % BSIZE != 0 {
      assert bn * BSIZE < ip.size;
      forall m | 0 <= m < MAXFILE && m * BSIZE < ip'.size
        ensures FileBlock(blocks, ip', m) != 0
      {
        assert m <= bn;
      }
    }
  }

  lemma NoSlot(blocks: seq<Block>, inodes: seq<Inode>, s0: Slot)
    requires forall i :: 0 <= i < |inodes| ==> WellFormed(blocks, inodes[i])
    ensures OnlySlot(blocks, inodes, blocks, inodes, s0)
  {
  }

  /** The indirect block itself is no file block, so taking it moves none. */
  lemma IndirectIsNoFileBlock(b0: seq<Block>, i0: seq<Inode>, b1: seq<Block>, i1: seq<Inode>, i: nat, s: Slot)
    requires OnlySlot(b0, i0, b1, i1, Direct(i, NDIRECT))
    ensures OnlySlot(b0, i0, b1, i1, s)
  {
  }

  lemma OnlySlotTwice(b0: seq<Block>, i0: seq<Inode>, b1: seq<Block>, i1: seq<Inode>, b2: seq<Block>, s: Slot)
    requires OnlySlot(b0, i0, b1, i1, s) && OnlySlot(b1, i1, b2, i1, s)
    ensures OnlySlot(b0, i0, b2, i1, s)
  {
  }

  lemma OnlySlotThenWrite(b0: seq<Block>, i0: seq<Inode>, b1: seq<Block>, i1: seq<Inode>, b2: seq<Block>, s: Slot)
    requires OnlySlot(b0, i0, b1, i1, s) && |b1| == |b2|
    requires forall j :: 0 <= j < |i1| ==> WellFormed(b2, i1[j])
    requires forall j, m :: 0 <= j < |i1| && 0 <= m < MAXFILE ==> FileBlock(b2, i1[j], m) == FileBlock(b1, i1[j], m)
    ensures OnlySlot(b0, i0, b2, i1, s)
  {
  }

  lemma BelowCounter(g: Geometry, freeblock: nat, blocks: seq<Block>, inodes: seq<Inode>, owner: map<nat, Slot>,
      i: nat, bn: nat)
    requires g.Valid() && freeblock <= g.size && Owned(g, FirstBits(g.nbitmap, freeblock), blocks, inodes, owner)
    requires i < |inodes| && bn < MAXFILE && FileBlock(blocks, inodes[i], bn) != 0
    ensures FileBlock(blocks, inodes[i], bn) < freeblock && |blocks| == g.size
  {
    hide InUse, FirstBits, Get32;
    FileBlockIsSlot(blocks, inodes, i, bn);
    var b := FileBlock(blocks, inodes[i], bn);
    assert b in owner;
    FirstBitsRead(g.nbitmap, freeblock, b);
  }

  lemma TightIsSized(blocks: seq<Block>, inodes: seq<Inode>)
    requires forall i :: 0 <= i < |inodes| ==> Tight(blocks, inodes[i], inodes[i].size)
    ensures AllSized(blocks, inodes) && forall i :: 0 <= i < |inodes| ==> NoHoles(blocks, inodes[i])
  {
  }

  lemma TightMeans(blocks: seq<Block>, ip: Inode, end: nat)
    requires Tight(blocks, ip, end)
    ensures WellFormed(blocks, ip) && end <= MAXFILE * BSIZE
  {
  }

  lemma TightAnySize(blocks: seq<Block>, ip: Inode, end: nat, size: nat)
    requires Tight(blocks, ip, end)
    ensures Tight(blocks, ip.(size := size), end)
  {
    assert forall bn :: 0 <= bn < MAXFILE ==> FileBlock(blocks, ip.(size := size), bn) == FileBlock(blocks, ip, bn);
  }

  /** The inodes other than i are as tight as their sizes say. */
  predicate OthersTight(blocks: seq<Block>, inodes: seq<Inode>, before: seq<Inode>, i: nat) {
    |inodes| == |before| && forall j :: 0 <= j < |inodes| && j != i ==> Tight(blocks, inodes[j], before[j].size)
  }

  lemma OthersStayTight(b1: seq<Block>, i1: seq<Inode>, b2: seq<Block>, i2: seq<Inode>, before: seq<Inode>, i: nat,
      bn: nat)
    requires bn < MAXFILE && OthersTight(b1, i1, before, i) && OnlySlot(b1, i1, b2, i2, SlotOf(i, bn))
    requires OnlyAddrs(i1, i2, i)
    ensures OthersTight(b2, i2, before, i)
  {
  }

  lemma AppendDone(b0: seq<Block>, i0: seq<Inode>, b1: seq<Block>, i1: seq<Inode>, i: nat, xp: seq<byte>)
    requires i < |i0| && Progress(b0, i0, b1, i1, i, i0[i].size, xp, |xp|)
    requires i < |i1| && Tight(b1, i1[i], i0[i].size + |xp|) && OthersTight(b1, i1, i0, i)
    requires forall j :: 0 <= j < |i0| ==> Clean(b0, i0[j])
    ensures var i2 := i1[i := i1[i].(size := i0[i].size + |xp|)];
      && OnlyAddrs(i0, i1, i)
      && AllSized(b0, i0) && AllSized(b1, i2)
      && (forall j :: 0 <= j < |i2| ==> Tight(b1, i2[j], i2[j].size) && Clean(b1, i2[j]))
      && FilesOf(b1, i2) == FilesOf(b0, i0)[i := FilesOf(b0, i0)[i] + xp]
  {
    var i2 := i1[i := i1[i].(size := i0[i].size + |xp|)];
    forall j | 0 <= j < |i2|
      ensures Clean(b1, i2[j])
    {
      CleanAfter(b0, i0, b1, i1, i, xp, j);
    }
    hide Progress, FilesOf, Clean;
    WriteDone(b0, i0, b1, i1, i, i0[i].size, xp);
    FileLength(b0, i0, i);
    var c := FilesOf(b0, i0)[i];
    assert Splice(c, |c|, xp) == c + xp;
    assert forall bn :: 0 <= bn < MAXFILE ==> FileBlock(b1, i2[i], bn) == FileBlock(b1, i1[i], bn);
  }

  /** Appended bytes come before the end of the file. */
  lemma CleanAfter(b0: seq<Block>, i0: seq<Inode>, b1: seq<Block>, i1: seq<Inode>, i: nat, xp: seq<byte>, j: nat)
    requires i < |i0| && Progress(b0, i0, b1, i1, i, i0[i].size, xp, |xp|) && j < |i0| && Clean(b0, i0[j])
    ensures j < |i1| && Clean(b1, i1[i := i1[i].(size := i0[i].size + |xp|)][j])
  {
    var ip := i1[i := i1[i].(size := i0[i].size + |xp|)][j];
    forall p | ip.size <= p < MAXFILE * BSIZE
      ensures ByteAt(b1, ip, p) == 0
    {
      assert xp[..|xp|] == xp;
      assert ByteAt(b1, ip, p) == ByteAt(b1, i1[j], p);
      assert ByteAt(b0, i0[j], p) == 0;
      if j != i {
        assert FileData(b1, i1[j], p / BSIZE) == FileData(b0, i0[j], p / BSIZE);
      }
    }
  }

  lemma TightMore(b0: seq<Block>, i0: seq<Inode>, b1: seq<Block>, i1: seq<Inode>, i: nat, at: nat, m: nat)
    requires i < |i0| && 0 < m && at / BSIZE < MAXFILE && at % BSIZE + m <= BSIZE
    requires OnlySlot(b0, i0, b1, i1, SlotOf(i, at / BSIZE)) && Tight(b0, i0[i], at)
    requires FileBlock(b1, i1[i], at / BSIZE) != 0
    requires at / BSIZE < NDIRECT ==> i1[i].addrs[NDIRECT] == i0[i].addrs[NDIRECT]
    ensures Tight(b1, i1[i], at + m)
  {
  }
}
