/** What whole address spaces look like: the kernel's mappings, growth by zeroed pages, copies. */
module SpaceSpec {
  import opened PageSpec
  import opened Wrappers

  // ---- The kernel's part --------------------------------------------------------------------

  /** n virtual pages from `virt` on, mapped to the pages from `start` on. */
  datatype Kmap = Kmap(virt: nat, start: nat, n: nat, perm: nat)

  const EXTMEM: nat := 0x100
  const PHYSTOP: nat := 0xE000
  const DEVSPACE: nat := 0xFE000

  /** The kernel's mappings, given the page where the kernel's data begins. */
  function KernelMap(data: nat): (ks: seq<Kmap>)
    requires EXTMEM < data < PHYSTOP
    ensures |ks| == 4
    ensures forall i :: 0 <= i < |ks| ==> ks[i].n >= 1 && KERNBASE <= ks[i].virt && ks[i].virt + ks[i].n <= VPAGES
    ensures forall i, j :: 0 <= i < j < |ks| ==> ks[i].virt + ks[i].n <= ks[j].virt
  {
    [ Kmap(KERNBASE, 0, EXTMEM, PTE_W),
      Kmap(KERNBASE + EXTMEM, EXTMEM, data - EXTMEM, 0),
      Kmap(KERNBASE + data, data, PHYSTOP - data, PTE_W),
      Kmap(DEVSPACE, DEVSPACE, VPAGES - DEVSPACE, PTE_W) ]
  }

  /** How a list of mappings translates page v. */
  function KernelPte(ks: seq<Kmap>, v: nat): Pte {
    if ks == [] then Absent
    else
      var k := ks[|ks| - 1];
      if k.virt <= v < k.virt + k.n then Present(k.start + (v - k.virt), k.perm)
      else KernelPte(ks[..|ks| - 1], v)
  }

  /** The kernel's part page by page: physical memory from KERNBASE on, read-only where the kernel's text lies, and
      the devices at their own addresses. No page of it is the user's. */
  lemma KernelPages(data: nat, v: nat)
    requires EXTMEM < data < PHYSTOP
    ensures KernelPte(KernelMap(data), v) ==
      if 0x80000 <= v < 0x8E000 then Present(v - 0x80000, if 0x80100 <= v < 0x80000 + data then 0 else 2)
      else if 0xFE000 <= v < 0x100000 then Present(v, 2)
      else Absent
  {
    var ks := KernelMap(data);
    assert ks[..3][..2] == ks[..2] && ks[..2][..1] == ks[..1] && ks[..1][..0] == [];
    assert KernelPte(ks, v) == if DEVSPACE <= v < VPAGES then Present(v, PTE_W) else KernelPte(ks[..3], v);
    assert KernelPte(ks[..3], v) ==
      if KERNBASE + data <= v < KERNBASE + PHYSTOP then Present(v - KERNBASE, PTE_W) else KernelPte(ks[..2], v);
    assert KernelPte(ks[..2], v) ==
      if KERNBASE + EXTMEM <= v < KERNBASE + data then Present(v - KERNBASE, 0) else KernelPte(ks[..1], v);
    assert KernelPte(ks[..1], v) ==
      if KERNBASE <= v < KERNBASE + EXTMEM then Present(v - KERNBASE, PTE_W) else Absent;
  }

  /** A page lies at or above a size, rounded up to pages, if its first byte does. */
  lemma RoundUpInBytes(bytes: nat, v: nat)
    ensures RoundUp(bytes) <= v <==> bytes <= v * PGSIZE
  {
  }

  /** Nothing is mapped above the mappings so far. */
  lemma {:induction false} AboveMaps(ks: seq<Kmap>, v: nat)
    requires forall i :: 0 <= i < |ks| ==> ks[i].virt + ks[i].n <= v
    ensures KernelPte(ks, v).Absent?
  {
    if ks != [] {
      AboveMaps(ks[..|ks| - 1], v);
    }
  }

  /** Nor below the kernel. */
  lemma {:induction false} BelowMaps(ks: seq<Kmap>, v: nat)
    requires v < KERNBASE && forall i :: 0 <= i < |ks| ==> KERNBASE <= ks[i].virt
    ensures KernelPte(ks, v).Absent?
  {
    if ks != [] {
      BelowMaps(ks[..|ks| - 1], v);
    }
  }

  /** Space d has exactly the given mappings. */
  ghost predicate HasMaps(m: Mem, d: nat, ks: seq<Kmap>) {
    forall v: nat :: Lookup(m, d, v) == KernelPte(ks, v)
  }

  // ---- How many tables the kernel's part takes --------------------------------------------------------------------

  /** Entry j is needed for a mapping. */
  predicate Spans(k: Kmap, j: nat) {
    Pdx(k.virt) <= j < TablesUpTo(k.virt, k.virt + k.n)
  }

  predicate Covered(ks: seq<Kmap>, j: nat) {
    ks != [] && (Spans(ks[|ks| - 1], j) || Covered(ks[..|ks| - 1], j))
  }

  /** How many entries below h some mapping needs. */
  function TablesFor(ks: seq<Kmap>, h: nat): nat {
    if h == 0 then 0 else TablesFor(ks, h - 1) + if Covered(ks, h - 1) then 1 else 0
  }

  /** From m to c a directory and the tables for the mappings were made. */
  ghost predicate KernelSpent(m: Mem, c: Mem, d: nat, ks: seq<Kmap>) {
    && |c.free| + 1 + TablesFor(ks, NENTRIES) == |m.free|
    && (forall j: nat :: Entry(c, d, j) != 0 <==> Covered(ks, j))
  }

  lemma {:induction false} NoneNeeded(h: nat)
    ensures TablesFor([], h) == 0
  {
    if h > 0 {
      NoneNeeded(h - 1);
    }
  }

  /** One more mapping needs the tables that are not there yet. */
  lemma {:induction false} OneMapMore(c: Mem, d: nat, ks: seq<Kmap>, k: Kmap, h: nat)
    requires forall j: nat :: Entry(c, d, j) != 0 <==> Covered(ks, j)
    ensures TablesFor(ks + [k], h) == TablesFor(ks, h) + NewTables(c, d, Pdx(k.virt),
      Least(h, TablesUpTo(k.virt, k.virt + k.n)))
  {
    assert (ks + [k])[..|ks|] == ks;
    if h > 0 {
      OneMapMore(c, d, ks, k, h - 1);
      assert Entry(c, d, h - 1) != 0 <==> Covered(ks, h - 1);
    }
  }

  lemma {:induction false} MoreMaps(ks: seq<Kmap>, i: nat, h: nat)
    requires i <= |ks|
    ensures TablesFor(ks[..i], h) <= TablesFor(ks, h)
  {
    if h > 0 {
      MoreMaps(ks, i, h - 1);
      CoveredPrefix(ks, i, h - 1);
    }
  }

  lemma {:induction false} CoveredPrefix(ks: seq<Kmap>, i: nat, j: nat)
    requires i <= |ks|
    ensures Covered(ks[..i], j) ==> Covered(ks, j)
  {
    if i == |ks| {
      assert ks[..i] == ks;
    } else {
      CoveredPrefix(ks[..|ks| - 1], i, j);
      assert ks[..|ks| - 1][..i] == ks[..i];
    }
  }

  /** The kernel maps 56 tables of memory and 8 of devices, wherever its data begins. */
  lemma KernelCovers(data: nat, j: nat)
    requires EXTMEM < data < PHYSTOP
    ensures Covered(KernelMap(data), j) <==> 512 <= j < 568 || 1016 <= j < 1024
  {
    var ks := KernelMap(data);
    assert ks[..3][..2] == ks[..2] && ks[..2][..1] == ks[..1] && ks[..1][..0] == [];
    assert Covered(ks[..1], j) <==> Spans(ks[0], j);
    assert Covered(ks[..2], j) <==> Spans(ks[0], j) || Spans(ks[1], j);
    assert Covered(ks[..3], j) <==> Spans(ks[0], j) || Spans(ks[1], j) || Spans(ks[2], j);
  }

  lemma {:induction false} KernelTablesBelow(data: nat, h: nat)
    requires EXTMEM < data < PHYSTOP && h <= NENTRIES
    ensures TablesFor(KernelMap(data), h) == if h <= 512 then 0 else if h <= 568 then h - 512 else if h <= 1016 then
      56 else h - 960
  {
    if h > 0 {
      KernelTablesBelow(data, h - 1);
      KernelCovers(data, h - 1);
    }
  }

  /** The pages that setupkvm takes: the directory and 64 tables. */
  const KERNELPAGES: nat := 65

  // ---- Undone --------------------------------------------------------------------

  /** Nothing changed but the order of the free list and the junk in free pages. */
  ghost predicate Unchanged(m: Mem, k: Mem) {
    && k.owner == m.owner && k.dirs == m.dirs && k.tables == m.tables
    && (forall p :: p in m.owner && m.owner[p] != Free ==> p in m.bytes && p in k.bytes && k.bytes[p] == m.bytes[p])
  }

  /** A space that was not there owned no pages. */
  lemma NotYetThere(m: Mem, d: nat, p: nat)
    requires Inv(m) && d in m.owner && m.owner[d] == Free && p in m.owner
    ensures !Belongs(m.owner[p], p, d)
  {
    hide FreeOk;
    if m.owner[p].Table? {
      assert EntryAt(m, d, m.owner[p].index, p);
    }
    if m.owner[p].User? {
      assert UserAt(m, d, m.owner[p].vpn, p);
    }
  }

  lemma PageUndone(m: Mem, n: Mem, k: Mem, d: nat, p: nat)
    requires p in m.owner && p in n.owner && p in k.owner && !Belongs(m.owner[p], p, d)
    requires p in m.tables ==> m.owner[p] != Free
    requires Step(m, n, d, p) && Back(n, k, d, p, PagesOf(n, d))
    ensures Back(m, k, d, p, {})
  {
  }

  /** Making a space and releasing it again changes nothing, whatever it had grown to. */
  lemma Undone(m: Mem, n: Mem, k: Mem, d: nat)
    requires Inv(m) && Inv(k) && d in m.owner && m.owner[d] == Free
    requires Grow(m, n, d, 0) && Released(n, k, d)
    ensures Unchanged(m, k)
  {
    hide FreeOk, TablesOk, UsersOk, PagesOf, Lookup;
    forall p | p in m.owner
      ensures Back(m, k, d, p, {})
    {
      NotYetThere(m, d, p);
      PageUndone(m, n, k, d, p);
    }
    assert k.owner == m.owner;
    assert d !in m.dirs && m.dirs - {d} == m.dirs;
    forall t | t in m.tables
      ensures t in k.tables && k.tables[t] == m.tables[t]
    {
      NotYetThere(m, d, t);
    }
  }

  // ---- Growth --------------------------------------------------------------------

  /** Nothing is mapped in d from lo up to hi. */
  ghost predicate Vacant(m: Mem, d: nat, lo: nat, hi: nat) {
    forall w: nat :: lo <= w < hi ==> Lookup(m, d, w).Absent?
  }

  /** Page v of d is a zeroed page of its own, writable by the user. */
  ghost predicate Zeroed(m: Mem, d: nat, v: nat) {
    && Lookup(m, d, v).Present? && Lookup(m, d, v).flags == PTE_W + PTE_U
    && PageOf(m, d, v) in m.bytes && m.bytes[PageOf(m, d, v)] == Filled(0)
  }

  /** Space d got zeroed pages from lo up to a, and nothing else changed. */
  ghost predicate Populated(m: Mem, c: Mem, d: nat, lo: nat, a: nat) {
    && Grow(m, c, d, 0)
    && (forall w: nat :: if lo <= w < a then Zeroed(c, d, w) else Lookup(c, d, w) == Lookup(m, d, w))
  }

  /** A failed growth undone: d has its old translations back, and perhaps some more tables. */
  ghost predicate Restored(m: Mem, k: Mem, d: nat, q: nat) {
    Grow(m, k, d, q) && forall w: nat :: Lookup(k, d, w) == Lookup(m, d, w)
  }

  /** A free page taken and filled. */
  lemma Loaded(m: Mem, d: nat, content: Bytes)
    requires Inv(m) && m.free != []
    ensures var q := m.free[0];
      && q in m.owner && m.owner[q] == Free && q != 0
      && var n := Popped(m).(bytes := m.bytes[q := content]);
      && Inv(n) && Restored(m, n, d, q)
  {
    hide FreeOk, TablesOk, UsersOk, Lookup, Entry;
    var q := m.free[0];
    PopKeepsInv(m);
    var n := Popped(m).(bytes := m.bytes[q := content]);
    SameTables(m, n);
    SameTables(Popped(m), n);
    FreeKept(Popped(m), n);
    EntriesKept(Popped(m), n);
    UsersKept(Popped(m), n);
    ShapesKept(Popped(m), n);
    PopGrow(m, d);
    LoadGrow(m, d, content);
  }

  lemma LoadGrow(m: Mem, d: nat, content: Bytes)
    requires Inv(m) && m.free != [] && Grow(m, Popped(m), d, m.free[0])
    ensures Grow(m, Popped(m).(bytes := m.bytes[m.free[0] := content]), d, m.free[0])
  {
  }

  /** Giving back a page that was taken in vain. */
  lemma GiveBack(m: Mem, n: Mem, d: nat, q: nat)
    requires Inv(m) && Inv(n) && Restored(m, n, d, q) && q in m.owner && m.owner[q] == Free
    requires q in n.owner && n.owner[q] == Held
    ensures Restored(m, Pushed(n, q), d, 0)
  {
    hide FreeOk, TablesOk, UsersOk, Lookup;
    SameTables(n, Pushed(n, q));
    forall p | p in m.owner
      ensures Step(m, Pushed(n, q), d, p)
    {
      if p != q {
        assert Step(m, n, d, p);
      }
    }
  }

  /** Clearing a range in which nothing was mapped to begin with undoes growth there. */
  lemma ClearedGrow(m: Mem, n: Mem, k: Mem, d: nat, q: nat, lo: nat, hi: nat)
    requires Inv(m) && Grow(m, n, d, q) && Cleared(n, k, d, lo, hi) && hi <= KERNBASE
    requires forall w: nat :: lo <= w < hi ==> Lookup(m, d, w).Absent?
    ensures Grow(m, k, d, q)
  {
    hide FreeOk, TablesOk, Lookup;
    forall p | p in m.owner && p != q
      ensures Step(m, k, d, p)
    {
      assert Step(m, n, d, p) && Back(n, k, d, p, UserPages(n, d, lo, hi));
      if m.owner[p].User? {
        assert m.owner[p].dir == d ==> UserAt(m, d, m.owner[p].vpn, p);
      }
    }
  }

  /** A failed allocuvm leaves the space as it was, a page q still held apart. */
  lemma GrowthUndone(m: Mem, c: Mem, n: Mem, k: Mem, d: nat, q: nat, lo: nat, a: nat, hi: nat)
    requires Inv(m) && Populated(m, c, d, lo, a) && Restored(c, n, d, q) && Cleared(n, k, d, lo, hi)
    requires lo <= a <= hi <= KERNBASE
    requires Vacant(m, d, lo, hi)
    ensures Restored(m, k, d, q)
  {
    hide FreeOk, TablesOk, UsersOk, Lookup, Grow, Zeroed;
    GrowAllBut(m, c, d, q);
    GrowTrans(m, c, n, d, q);
    ClearedGrow(m, n, k, d, q, lo, hi);
  }

  /** Page v of d was mapped to a page q with the given flags and contents; nothing else changed. */
  ghost predicate Added(m: Mem, n: Mem, d: nat, v: nat, q: nat, flags: nat, content: Bytes) {
    && Grow(m, n, d, 0) && q in n.bytes && n.bytes[q] == content
    && (forall w: nat :: Lookup(n, d, w) == if w == v then Present(q, flags) else Lookup(m, d, w))
  }

  /** Pages of d keep their contents while it grows. */
  lemma PageKept(c: Mem, n: Mem, d: nat, e: nat, w: nat)
    requires Inv(c) && Grow(c, n, d, 0) && w < KERNBASE && Lookup(c, e, w).Present?
    ensures PageOf(c, e, w) in c.bytes && PageOf(c, e, w) in n.bytes &&
      n.bytes[PageOf(c, e, w)] == c.bytes[PageOf(c, e, w)]
  {
    hide FreeOk, TablesOk, Lookup;
    assert UserAt(c, e, w, PageOf(c, e, w));
    assert Step(c, n, d, PageOf(c, e, w));
  }

  lemma PopulatedMore(m: Mem, c: Mem, n: Mem, d: nat, lo: nat, a: nat, q: nat)
    requires Inv(c) && Populated(m, c, d, lo, a) && lo <= a < KERNBASE
    requires Added(c, n, d, a, q, PTE_W + PTE_U, Filled(0))
    ensures Populated(m, n, d, lo, a + 1)
  {
    hide Inv, Lookup, Grow, Filled;
    GrowTrans(m, c, n, d, 0);
    forall w: nat | lo <= w < a + 1
      ensures Zeroed(n, d, w)
    {
      if w < a {
        assert Zeroed(c, d, w);
        PageKept(c, n, d, d, w);
      }
    }
  }

  // ---- Copies --------------------------------------------------------------------

  /** Page v of e in c is a copy of page v of d in m. */
  ghost predicate Twin(m: Mem, c: Mem, d: nat, e: nat, v: nat) {
    && Lookup(m, d, v).Present? && Lookup(c, e, v).Present? && Lookup(c, e, v).flags == Lookup(m, d, v).flags
    && PageOf(m, d, v) in m.bytes && PageOf(c, e, v) in c.bytes && c.bytes[PageOf(c, e, v)] == m.bytes[PageOf(m, d, v)]
  }

  /** New space e holds copies of the first i pages of d besides the kernel's mappings, and nothing
      else changed. */
  ghost predicate Copied(m: Mem, c: Mem, d: nat, e: nat, i: nat, ks: seq<Kmap>) {
    && e in m.owner && m.owner[e] == Free && e in c.dirs && Grow(m, c, e, 0)
    && (forall w: nat :: if w < i then Twin(m, c, d, e, w) else Lookup(c, e, w) == KernelPte(ks, w))
  }

  lemma CopiedMore(m: Mem, c: Mem, n: Mem, d: nat, e: nat, i: nat, ks: seq<Kmap>, q: nat)
    requires Inv(m) && Inv(c) && Copied(m, c, d, e, i, ks) && i < KERNBASE && Lookup(m, d, i).Present?
    requires e in n.dirs && PageOf(m, d, i) in m.bytes
    requires Added(c, n, e, i, q, Lookup(m, d, i).flags, m.bytes[PageOf(m, d, i)])
    ensures Copied(m, n, d, e, i + 1, ks)
  {
    hide Inv, Lookup, Grow, KernelPte;
    GrowTrans(m, c, n, e, 0);
    forall w: nat | w < i + 1
      ensures Twin(m, n, d, e, w)
    {
      if w < i {
        assert Twin(m, c, d, e, w);
        PageKept(c, n, e, e, w);
      }
    }
  }

  /** Two spaces share no user page. */
  lemma PagesApart(m: Mem, d: nat, v: nat, e: nat, w: nat)
    requires Inv(m) && v < KERNBASE && w < KERNBASE && (d != e || v != w)
    requires Lookup(m, d, v).Present? && Lookup(m, e, w).Present?
    ensures PageOf(m, d, v) != PageOf(m, e, w)
  {
    hide FreeOk, TablesOk, Lookup;
    assert UserAt(m, d, v, PageOf(m, d, v));
    assert UserAt(m, e, w, PageOf(m, d, v));
  }
}
