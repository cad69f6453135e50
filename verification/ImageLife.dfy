/** From mkfs to the running kernel: the image that mkfs builds, and what runs on it do. */
module ImageLife {
  import opened Bitmap
  import opened Blocks
  import opened Inodes
  import opened Params
  import opened FileSystem
  import opened FileWrite
  import opened Mkfs

  /** An image before anything is in it. */
  ghost predicate Empty(image: Image)
    reads image
  {
    image.Valid() && image.freeinode == 1 && forall i :: 0 <= i < NINODES ==> image.inodes[i] == Blank(0, 0)
  }

  /** mkfs, which succeeds exactly for files that fit, then any run of reads, writes, truncations and
      filewrites on the image. The replies are those of plain byte strings that start as the files given to
      mkfs, and block ownership holds throughout; a run stops short only with every block in use. Every
      filewrite transaction, but on the root, logs at most MAXOPBLOCKS blocks, whatever the size of the free
      map. */
  method BuildAndRun(image: Image, files: seq<NewFile>, ops: seq<Op>)
    returns (fs: Fs?, replies: seq<Reply>, ghost logs: seq<Logged>)
    requires Empty(image) && forall k :: 0 <= k < |ops| ==> ValidOp(ops[k], NINODES)
    modifies image
    ensures fs != null <==> CanBuild(image.g, old(image.freeblock), files)
    ensures fs != null ==> |replies| <= |ops| && fresh(fs)
    ensures fs != null ==> replies == Answers(ImageFiles(files), ops[..|replies|])
    ensures fs != null && |replies| < |ops| ==> !ops[|replies|].Truncate? && fs.Exhausted()
    ensures fs != null && |replies| == |ops| ==> fs.Valid() && fs.Files() == AfterAll(ImageFiles(files), ops)
    ensures fs != null && |replies| == |ops| ==>
      |fs.icache| == NINODES && forall i :: 0 <= i < NINODES && i != ROOTINO ==> NoHoles(fs.blocks, fs.icache[i])
    ensures fs != null && |replies| == |ops| ==> |logs| == AllTransactions(ImageFiles(files), ops)
    ensures forall k :: 0 <= k < |logs| && logs[k].inum != ROOTINO ==> |logs[k].blocks| <= MAXOPBLOCKS
    ensures image.g.nbitmap == 1 ==> forall k :: 0 <= k < |logs| ==> |logs[k].blocks| <= 7
  {
    hide Owned, FilesOf, NoHoles, Sized, Shadow, ImageFiles;
    fs, replies, logs := null, [], [];
    var ok, bm := image.Build(files);
    if ok {
      var disk := new Fs(image.g, bm, image.blocks, image.inodes, image.owner);
      replies, logs := Run(disk, ops);
      fs := disk;
    }
  }

  /** The first scan of the whole root directory, as a lookup makes it. It sees the entries that mkfs wrote;
      it changes the free map that mkfs wrote, bm, and leaves the root's inode on disk without the block it
      took, exactly when the entries are a multiple of 32. It panics exactly when they are and mkfs used the
      last block. */
  method ScanRoot(image: Image, files: seq<NewFile>) returns (fs: Fs?, bm: seq<Block>, out: ReadOutcome)
    requires Empty(image)
    modifies image
    ensures fs != null <==> CanBuild(image.g, old(image.freeblock), files)
    ensures fs != null ==> !out.BadRange?
    ensures fs != null && out.Bytes? ==>
      && fs.Valid() && |fs.icache| == NINODES && out.data == ImageFiles(files)[ROOTINO]
      && (fs.bm != bm <==> (|files| + 2) % 32 == 0)
      && (!fs.Synced(ROOTINO) <==> (|files| + 2) % 32 == 0)
    ensures fs != null ==>
      (out.NoBlock? <==> (|files| + 2) % 32 == 0 && old(image.freeblock) + Total(files, |files|) == image.g.size)
  {
    hide Owned, FilesOf, NoHoles, Sized, Shadow, MeetsHole, AddrsPresent, ImageFiles, Tight, TwoHoles, Full, Total;
    fs, out := null, BadRange;
    var ok;
    ok, bm := image.Build(files);
    if ok {
      var disk := new Fs(image.g, bm, image.blocks, image.inodes, image.owner);
      FileLength(disk.blocks, disk.icache, ROOTINO);
      RootLength(files);
      WholeRange(disk.blocks, disk.icache[ROOTINO]);
      OneHole(disk.blocks, disk.icache[ROOTINO], DIRENT * (|files| + 2));
      UsedUp(image.g, image.freeblock);
      out := disk.Readi(ROOTINO, 0, disk.icache[ROOTINO].size);
      assert out.Bytes? ==> out.data == disk.Files()[ROOTINO][0..|disk.Files()[ROOTINO]|];
      fs := disk;
    }
  }

  /** mkfs's own disk: 1000 blocks, of which 59 are metadata. */
  const FSDISK: Geometry := Geometry(1000, 59, 32, 58, 1)

  /** n empty files. */
  function EmptyFiles(n: nat): seq<NewFile> {
    seq(n, i => NewFile([120], []))
  }

  /** Up to 198 empty files fit mkfs's disk and leave blocks free; 30 of them make 32 entries. */
  lemma {:induction false} EmptyFilesFit(n: nat)
    requires n + 2 <= NINODES
    ensures Total(EmptyFiles(n), n) == Needed(DIRENT * (2 + n)) <= 7
    ensures FSDISK.Valid() && CanBuild(FSDISK, FSDISK.nmeta, EmptyFiles(n))
  {
    NoData(EmptyFiles(n), n);
  }

  lemma {:induction false} NoData(files: seq<NewFile>, k: nat)
    requires k <= |files| && forall i :: 0 <= i < |files| ==> files[i].data == []
    ensures DataBlocks(files, k) == 0
  {
    if k > 0 {
      NoData(files, k - 1);
    }
  }

  /** An image with a hole: mkfs on its own disk with 30 empty files. The scan takes a block for it that the
      root's inode on disk does not name. */
  method HoleInRoot() returns (fs: Fs, bm: seq<Block>)
    ensures fs.Valid() && fs.bm != bm && ROOTINO < |fs.icache| && !fs.Synced(ROOTINO)
  {
    hide Owned, FilesOf, NoHoles, Sized, Shadow, ImageFiles, CanBuild, Total;
    EmptyFilesFit(30);
    var image := new Image(FSDISK);
    var disk, map0, out := ScanRoot(image, EmptyFiles(30));
    fs, bm := disk, map0;
  }

  /** The root of the image fits the direct blocks. */
  lemma RootLength(files: seq<NewFile>)
    requires |files| + 2 <= NINODES
    ensures |ImageFiles(files)[ROOTINO]| == RoundUp(DIRENT * (|files| + 2)) <= NDIRECT * BSIZE
  {
    EntriesRead(files, |files|, 0);
  }

  /** A range that is the whole file meets a hole exactly when the file has one. */
  lemma WholeRange(blocks: seq<Block>, ip: Inode)
    requires Sized(blocks, ip) && ip.size <= NDIRECT * BSIZE
    ensures MeetsHole(blocks, ip, 0, ip.size) <==> !NoHoles(blocks, ip)
    ensures AddrsPresent(ip, 0, ip.size) <==> NoHoles(blocks, ip)
  {
    forall bn: nat
      ensures InRange(0, ip.size, bn) <==> bn * BSIZE < ip.size
      ensures InRange(0, ip.size, bn) ==> bn < NDIRECT
    {
    }
  }

  /** A file that is allocated up to `end` and rounded up from there misses one block at most. */
  lemma OneHole(blocks: seq<Block>, ip: Inode, end: nat)
    requires Tight(blocks, ip, end) && ip.size == RoundUp(end)
    ensures !TwoHoles(blocks, ip, 0, ip.size)
  {
    forall a: nat, b: nat | a < b < MAXFILE
      ensures !(HoleAt(blocks, ip, 0, ip.size, a) && HoleAt(blocks, ip, 0, ip.size, b))
    {
    }
  }

  /** The free map that mkfs writes has every bit set exactly when it used the last block. */
  lemma UsedUp(g: Geometry, n: nat)
    requires g.Valid() && n <= g.size
    ensures Full(g, FirstBits(g.nbitmap, n)) <==> n == g.size
  {
    forall c: nat | c < g.size
      ensures InUse(FirstBits(g.nbitmap, n), c) <==> c < n
    {
      FirstBitsRead(g.nbitmap, n, c);
    }
    assert n < g.size ==> !InUse(FirstBits(g.nbitmap, n), n);
  }
}
