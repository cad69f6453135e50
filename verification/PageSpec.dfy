/** Page tables and the pages behind them. Memory is a fixed set of physical pages handed out by a
    free list; an address space is a directory page that refers to table pages, whose entries map
    virtual pages. Addresses are page numbers except where a size in bytes is rounded. */
module PageSpec {
  import opened Wrappers

  const PGSIZE: nat := 4096
  const NENTRIES: nat := 1024
  /** The first kernel virtual page; user space lies below. */
  const KERNBASE: nat := 0x80000
  /** The same limit in bytes. */
  const USERTOP: nat := 0x8000_0000
  const VPAGES: nat := 0x100000

  const PTE_W: nat := 2
  const PTE_U: nat := 4

  type Bytes = seq<nat>

  /** A page table entry; flags are its low bits other than the present bit. */
  datatype Pte = Absent | Present(page: nat, flags: nat)

  /** What a physical page is used for. `Held` pages are allocated and in use elsewhere. */
  datatype Owner = Free | Held | Dir | Table(dir: nat, index: nat) | User(dir: nat, vpn: nat)

  /** Memory, with each page's owner. A directory entry is a table page, or 0 for none. */
  datatype Mem = Mem(
    free: seq<nat>,
    dirs: map<nat, seq<nat>>,
    tables: map<nat, seq<Pte>>,
    bytes: map<nat, Bytes>,
    owner: map<nat, Owner>)

  function Filled(b: nat): Bytes {
    seq(PGSIZE, _ => b)
  }

  function NoEntries(): (t: seq<Pte>)
    ensures |t| == NENTRIES
  {
    seq(NENTRIES, _ => Absent)
  }

  function NoTables(): (d: seq<nat>)
    ensures |d| == NENTRIES
  {
    seq(NENTRIES, _ => 0)
  }

  function Pdx(v: nat): nat { v / NENTRIES }
  function Ptx(v: nat): nat { v % NENTRIES }

  lemma IndicesTell(v: nat, w: nat)
    requires Pdx(v) == Pdx(w) && Ptx(v) == Ptx(w)
    ensures v == w
  {
  }

  function RoundUp(bytes: nat): nat {
    (bytes + PGSIZE - 1) / PGSIZE
  }

  function Entry(m: Mem, d: nat, i: nat): nat {
    if d in m.dirs && i < |m.dirs[d]| then m.dirs[d][i] else 0
  }

  /** What the hardware finds for virtual page v. */
  function Lookup(m: Mem, d: nat, v: nat): Pte {
    var t := Entry(m, d, Pdx(v));
    if t != 0 && t in m.tables && |m.tables[t]| == NENTRIES then m.tables[t][Ptx(v)] else Absent
  }

  // ---- The invariant --------------------------------------------------------------------

  ghost predicate FreeOk(m: Mem) {
    && (forall i, j :: 0 <= i < j < |m.free| ==> m.free[i] != m.free[j])
    && (forall p :: p in m.free <==> p in m.owner && m.owner[p] == Free)
  }

  /** Directories and tables are the pages marked so, with room for all entries. */
  ghost predicate ShapesOk(m: Mem) {
    && 0 !in m.owner && m.bytes.Keys == m.owner.Keys
    && (forall d :: d in m.dirs <==> d in m.owner && m.owner[d] == Dir)
    && (forall t :: t in m.tables <==> t in m.owner && m.owner[t].Table?)
    && (forall d :: d in m.dirs ==> |m.dirs[d]| == NENTRIES)
    && (forall t :: t in m.tables ==> |m.tables[t]| == NENTRIES)
  }

  /** Entries and owners agree on tables: each table is in the one entry its owner names. */
  ghost predicate EntryAt(m: Mem, d: nat, i: nat, p: nat) {
    p in m.owner && (Entry(m, d, i) == p <==> m.owner[p] == Table(d, i))
  }

  ghost predicate TablesOk(m: Mem) {
    && (forall d: nat, i: nat :: Entry(m, d, i) != 0 ==> Entry(m, d, i) in m.owner)
    && (forall d: nat, i: nat, p {:trigger EntryAt(m, d, i, p)} :: p in m.owner ==> EntryAt(m, d, i, p))
  }

  /** Lookups and owners agree on user pages: each page is in the one mapping its owner names. */
  ghost predicate UserAt(m: Mem, d: nat, v: nat, p: nat) {
    p in m.owner && (PageOf(m, d, v) == p <==> m.owner[p] == User(d, v))
  }

  /** The page mapped at v, or 0. */
  function PageOf(m: Mem, d: nat, v: nat): nat {
    match Lookup(m, d, v)
    case Absent => 0
    case Present(p, _) => p
  }

  ghost predicate UsersOk(m: Mem) {
    && (forall d: nat, v: nat {:trigger PageOf(m, d, v)} :: v < KERNBASE && Lookup(m, d, v).Present? ==>
      PageOf(m, d, v) in m.owner)
    && (forall d: nat, v: nat, p {:trigger UserAt(m, d, v, p)} :: v < KERNBASE && p in m.owner ==> UserAt(m, d, v, p))
    && (forall p :: p in m.owner && m.owner[p].User? ==> m.owner[p].vpn < KERNBASE)
  }

  /** Every page is in exactly one place: the free list, a directory, a table, a user mapping, or
      held elsewhere. */
  ghost predicate Inv(m: Mem) {
    FreeOk(m) && ShapesOk(m) && TablesOk(m) && UsersOk(m)
  }

  // ---- Steps --------------------------------------------------------------------

  function Popped(m: Mem): Mem
    requires m.free != []
  {
    m.(free := m.free[1..], owner := m.owner[m.free[0] := Held])
  }

  function Pushed(m: Mem, p: nat): Mem {
    m.(free := [p] + m.free, bytes := m.bytes[p := Filled(1)], owner := m.owner[p := Free])
  }

  lemma SameTables(m: Mem, n: Mem)
    requires n.dirs == m.dirs && n.tables == m.tables
    ensures forall d: nat, i: nat :: Entry(n, d, i) == Entry(m, d, i)
    ensures forall d: nat, v: nat :: Lookup(n, d, v) == Lookup(m, d, v)
  {
    assert forall d: nat, i: nat :: Entry(n, d, i) == Entry(m, d, i);
  }

  /** A page that is neither a table nor mapped may change owner freely. */
  lemma EntriesKept(m: Mem, n: Mem)
    requires TablesOk(m) && n.owner.Keys == m.owner.Keys
    requires forall d: nat, i: nat :: Entry(n, d, i) == Entry(m, d, i)
    requires forall p :: p in m.owner && (m.owner[p].Table? || n.owner[p].Table?) ==> n.owner[p] == m.owner[p]
    ensures TablesOk(n)
  {
    hide Entry;
    forall d: nat, i: nat, p | p in n.owner
      ensures EntryAt(n, d, i, p)
    {
      assert EntryAt(m, d, i, p);
    }
  }

  lemma UsersKept(m: Mem, n: Mem)
    requires UsersOk(m) && n.owner.Keys == m.owner.Keys
    requires forall d: nat, v: nat :: Lookup(n, d, v) == Lookup(m, d, v)
    requires forall p :: p in m.owner && (m.owner[p].User? || n.owner[p].User?) ==> n.owner[p] == m.owner[p]
    ensures UsersOk(n)
  {
    hide Lookup;
    assert forall d: nat, v: nat :: PageOf(n, d, v) == PageOf(m, d, v);
    hide PageOf;
    forall d: nat, v: nat, p | v < KERNBASE && p in n.owner
      ensures UserAt(n, d, v, p)
    {
      assert UserAt(m, d, v, p);
    }
  }

  lemma FreeKept(m: Mem, n: Mem)
    requires FreeOk(m) && n.free == m.free && n.owner.Keys == m.owner.Keys
    requires forall p :: p in m.owner ==> (m.owner[p] == Free <==> n.owner[p] == Free)
    ensures FreeOk(n)
  {
  }

  lemma ShapesKept(m: Mem, n: Mem)
    requires ShapesOk(m) && n.owner.Keys == m.owner.Keys == n.bytes.Keys
    requires n.dirs.Keys == m.dirs.Keys && n.tables.Keys == m.tables.Keys
    requires forall d :: d in n.dirs ==> |n.dirs[d]| == NENTRIES
    requires forall t :: t in n.tables ==> |n.tables[t]| == NENTRIES
    requires forall p :: p in m.owner ==> (m.owner[p] == Dir <==> n.owner[p] == Dir)
    requires forall p :: p in m.owner ==> (m.owner[p].Table? <==> n.owner[p].Table?)
    ensures ShapesOk(n)
  {
  }

  lemma PopFree(m: Mem)
    requires FreeOk(m) && m.free != []
    ensures m.free[0] in m.owner && m.owner[m.free[0]] == Free
    ensures FreeOk(Popped(m))
  {
    assert m.free[0] in m.free;
    assert m.free == [m.free[0]] + Popped(m).free;
  }

  lemma PopKeepsInv(m: Mem)
    requires Inv(m) && m.free != []
    ensures m.free[0] in m.owner && m.owner[m.free[0]] == Free && m.free[0] != 0
    ensures Inv(Popped(m))
  {
    hide Entry, Lookup, FreeOk, TablesOk, UsersOk;
    var n := Popped(m);
    PopFree(m);
    ShapesKept(m, n);
    SameTables(m, n);
    EntriesKept(m, n);
    UsersKept(m, n);
  }

  lemma PushFree(m: Mem, p: nat)
    requires FreeOk(m) && p in m.owner && m.owner[p] != Free
    ensures FreeOk(Pushed(m, p))
  {
  }

  lemma PushKeepsInv(m: Mem, p: nat)
    requires Inv(m) && p in m.owner && m.owner[p] == Held
    ensures Inv(Pushed(m, p))
  {
    hide Entry, Lookup, FreeOk, TablesOk, UsersOk;
    var n := Pushed(m, p);
    PushFree(m, p);
    ShapesKept(m, n);
    SameTables(m, n);
    EntriesKept(m, n);
    UsersKept(m, n);
  }

  function WithTable(m: Mem, d: nat, i: nat, t: nat): Mem
    requires d in m.dirs && i < |m.dirs[d]|
  {
    var entries: seq<nat> := m.dirs[d][i := t];
    m.(dirs := m.dirs[d := entries], tables := m.tables[t := NoEntries()], owner := m.owner[t := Table(d, i)])
  }

  /** No entry refers to a page that is not a table. */
  lemma NoEntryTo(m: Mem, t: nat)
    requires Inv(m) && t in m.owner && !m.owner[t].Table?
    ensures forall d: nat, i: nat :: Entry(m, d, i) != t
  {
    forall d: nat, i: nat
      ensures Entry(m, d, i) != t
    {
      assert EntryAt(m, d, i, t);
    }
  }

  lemma TableLookup(m: Mem, d: nat, i: nat, t: nat)
    requires Inv(m) && d in m.dirs && i < NENTRIES && Entry(m, d, i) == 0
    requires t in m.owner && m.owner[t] == Held
    ensures forall e: nat, j: nat ::
      Entry(WithTable(m, d, i, t), e, j) == if e == d && j == i then t else Entry(m, e, j)
    ensures forall e: nat, v: nat :: Lookup(WithTable(m, d, i, t), e, v) == Lookup(m, e, v)
  {
    hide FreeOk, TablesOk, UsersOk;
    var n := WithTable(m, d, i, t);
    NoEntryTo(m, t);
    assert forall e: nat, j: nat :: Entry(n, e, j) == if e == d && j == i then t else Entry(m, e, j);
  }

  lemma TableShapes(m: Mem, d: nat, i: nat, t: nat)
    requires ShapesOk(m) && d in m.dirs && i < NENTRIES && t in m.owner && m.owner[t] == Held
    ensures i < |m.dirs[d]| && ShapesOk(WithTable(m, d, i, t))
  {
  }

  lemma TableKeepsInv(m: Mem, d: nat, i: nat, t: nat)
    requires Inv(m) && d in m.dirs && i < NENTRIES && Entry(m, d, i) == 0
    requires t in m.owner && m.owner[t] == Held
    ensures Inv(WithTable(m, d, i, t))
  {
    hide Entry, Lookup, FreeOk, ShapesOk, UsersOk;
    TableShapes(m, d, i, t);
    var n := WithTable(m, d, i, t);
    TableLookup(m, d, i, t);
    FreeKept(m, n);
    UsersKept(m, n);
    forall e: nat, j: nat, p | p in n.owner
      ensures EntryAt(n, e, j, p)
    {
      assert EntryAt(m, e, j, p);
    }
  }

  /** Entry v of d set to pte. */
  function WithPte(m: Mem, d: nat, v: nat, pte: Pte): Mem
    requires Entry(m, d, Pdx(v)) in m.tables && |m.tables[Entry(m, d, Pdx(v))]| == NENTRIES
  {
    var t := Entry(m, d, Pdx(v));
    m.(tables := m.tables[t := m.tables[t][Ptx(v) := pte]])
  }

  /** A present entry is a table, and no other entry refers to it. */
  lemma TableOf(m: Mem, d: nat, i: nat)
    requires Inv(m) && Entry(m, d, i) != 0
    ensures Entry(m, d, i) in m.tables && |m.tables[Entry(m, d, i)]| == NENTRIES && d in m.dirs
    ensures m.owner[Entry(m, d, i)] == Table(d, i)
    ensures forall e: nat, j: nat :: Entry(m, e, j) == Entry(m, d, i) ==> e == d && j == i
  {
    hide FreeOk, UsersOk;
    var t := Entry(m, d, i);
    assert EntryAt(m, d, i, t);
    forall e: nat, j: nat | Entry(m, e, j) == t
      ensures e == d && j == i
    {
      assert EntryAt(m, e, j, t);
    }
  }

  lemma PteLookup(m: Mem, d: nat, v: nat, pte: Pte)
    requires Inv(m) && Entry(m, d, Pdx(v)) != 0
    ensures Entry(m, d, Pdx(v)) in m.tables && |m.tables[Entry(m, d, Pdx(v))]| == NENTRIES
    ensures forall e: nat, i: nat :: Entry(WithPte(m, d, v, pte), e, i) == Entry(m, e, i)
    ensures forall e: nat, w: nat ::
      Lookup(WithPte(m, d, v, pte), e, w) == if e == d && w == v then pte else Lookup(m, e, w)
  {
    hide Inv;
    TableOf(m, d, Pdx(v));
    var n := WithPte(m, d, v, pte);
    assert forall e: nat, i: nat :: Entry(n, e, i) == Entry(m, e, i);
    forall e: nat, w: nat
      ensures Lookup(n, e, w) == if e == d && w == v then pte else Lookup(m, e, w)
    {
      if Entry(m, e, Pdx(w)) == Entry(m, d, Pdx(v)) && Ptx(w) == Ptx(v) {
        IndicesTell(v, w);
      }
    }
  }

  /** A held page mapped at v. Only a user mapping takes the page over: kernel mappings refer to
      pages they do not own. */
  function Mapped(m: Mem, d: nat, v: nat, p: nat, flags: nat): Mem
    requires Entry(m, d, Pdx(v)) in m.tables && |m.tables[Entry(m, d, Pdx(v))]| == NENTRIES
  {
    var n := WithPte(m, d, v, Present(p, flags));
    if v < KERNBASE then n.(owner := m.owner[p := User(d, v)]) else n
  }

  lemma MapLookup(m: Mem, d: nat, v: nat, p: nat, flags: nat)
    requires Inv(m) && Entry(m, d, Pdx(v)) != 0
    ensures Entry(m, d, Pdx(v)) in m.tables && |m.tables[Entry(m, d, Pdx(v))]| == NENTRIES
    ensures forall e: nat, i: nat :: Entry(Mapped(m, d, v, p, flags), e, i) == Entry(m, e, i)
    ensures forall e: nat, w: nat ::
      Lookup(Mapped(m, d, v, p, flags), e, w) == if e == d && w == v then Present(p, flags) else Lookup(m, e, w)
  {
    hide Inv, Entry, Lookup;
    PteLookup(m, d, v, Present(p, flags));
    SameTables(WithPte(m, d, v, Present(p, flags)), Mapped(m, d, v, p, flags));
  }

  lemma MapUsers(m: Mem, n: Mem, d: nat, v: nat, p: nat, flags: nat)
    requires UsersOk(m) && ShapesOk(m) && Lookup(m, d, v).Absent?
    requires v < KERNBASE && p in m.owner && m.owner[p] == Held && n.owner == m.owner[p := User(d, v)]
    requires forall e: nat, w: nat :: Lookup(n, e, w) == if e == d && w == v then Present(p, flags) else Lookup(m, e, w)
    ensures UsersOk(n)
  {
    hide Lookup;
    assert forall e: nat, w: nat :: PageOf(n, e, w) == if e == d && w == v then p else PageOf(m, e, w);
    forall e: nat, w: nat, q | w < KERNBASE && q in n.owner
      ensures UserAt(n, e, w, q)
    {
      assert UserAt(m, e, w, q);
    }
  }

  lemma KernelUsers(m: Mem, n: Mem, d: nat, v: nat, pte: Pte)
    requires UsersOk(m) && v >= KERNBASE && n.owner == m.owner
    requires forall e: nat, w: nat :: Lookup(n, e, w) == if e == d && w == v then pte else Lookup(m, e, w)
    ensures UsersOk(n)
  {
    hide Lookup;
    assert forall e: nat, w: nat :: PageOf(n, e, w) == if e == d && w == v then PageOf(n, d, v) else PageOf(m, e, w);
    forall e: nat, w: nat, q | w < KERNBASE && q in n.owner
      ensures UserAt(n, e, w, q)
    {
      assert UserAt(m, e, w, q);
    }
  }

  lemma MapKeepsInv(m: Mem, d: nat, v: nat, p: nat, flags: nat)
    requires Inv(m) && Entry(m, d, Pdx(v)) != 0 && Lookup(m, d, v).Absent?
    requires v < KERNBASE ==> p in m.owner && m.owner[p] == Held
    ensures Entry(m, d, Pdx(v)) in m.tables && |m.tables[Entry(m, d, Pdx(v))]| == NENTRIES
    ensures Inv(Mapped(m, d, v, p, flags))
  {
    hide Entry, Lookup, FreeOk, TablesOk, UsersOk;
    MapLookup(m, d, v, p, flags);
    var n := Mapped(m, d, v, p, flags);
    FreeKept(m, n);
    ShapesKept(m, n);
    EntriesKept(m, n);
    if v < KERNBASE {
      MapUsers(m, n, d, v, p, flags);
    } else {
      KernelUsers(m, n, d, v, Present(p, flags));
    }
  }

  /** The mapping of user page v removed; its page is held. */
  function Unmapped(m: Mem, d: nat, v: nat): Mem
    requires Entry(m, d, Pdx(v)) in m.tables && |m.tables[Entry(m, d, Pdx(v))]| == NENTRIES
  {
    WithPte(m, d, v, Absent).(owner := m.owner[PageOf(m, d, v) := Held])
  }

  lemma UnmapLookup(m: Mem, d: nat, v: nat)
    requires Inv(m) && Entry(m, d, Pdx(v)) != 0
    ensures Entry(m, d, Pdx(v)) in m.tables && |m.tables[Entry(m, d, Pdx(v))]| == NENTRIES
    ensures forall e: nat, i: nat :: Entry(Unmapped(m, d, v), e, i) == Entry(m, e, i)
    ensures forall e: nat, w: nat ::
      Lookup(Unmapped(m, d, v), e, w) == if e == d && w == v then Absent else Lookup(m, e, w)
  {
    hide Inv, Entry, Lookup;
    PteLookup(m, d, v, Absent);
    SameTables(WithPte(m, d, v, Absent), Unmapped(m, d, v));
  }

  lemma UnmapUsers(m: Mem, n: Mem, d: nat, v: nat)
    requires UsersOk(m) && ShapesOk(m) && v < KERNBASE && PageOf(m, d, v) != 0
    requires n.owner == m.owner[PageOf(m, d, v) := Held]
    requires forall e: nat, w: nat :: Lookup(n, e, w) == if e == d && w == v then Absent else Lookup(m, e, w)
    ensures PageOf(m, d, v) in m.owner && m.owner[PageOf(m, d, v)] == User(d, v)
    ensures UsersOk(n)
  {
    hide Lookup;
    assert forall e: nat, w: nat :: PageOf(n, e, w) == if e == d && w == v then 0 else PageOf(m, e, w);
    assert UserAt(m, d, v, PageOf(m, d, v));
    forall e: nat, w: nat, q | w < KERNBASE && q in n.owner
      ensures UserAt(n, e, w, q)
    {
      assert UserAt(m, e, w, q);
    }
  }

  lemma UnmapKeepsInv(m: Mem, d: nat, v: nat)
    requires Inv(m) && Entry(m, d, Pdx(v)) != 0 && PageOf(m, d, v) != 0 && v < KERNBASE
    ensures Entry(m, d, Pdx(v)) in m.tables && |m.tables[Entry(m, d, Pdx(v))]| == NENTRIES
    ensures PageOf(m, d, v) in m.owner && m.owner[PageOf(m, d, v)] == User(d, v)
    ensures Inv(Unmapped(m, d, v))
  {
    hide Entry, Lookup, PageOf, FreeOk, TablesOk, UsersOk;
    UnmapLookup(m, d, v);
    var n := Unmapped(m, d, v);
    UnmapUsers(m, n, d, v);
    FreeKept(m, n);
    ShapesKept(m, n);
    EntriesKept(m, n);
  }

  function WithDir(m: Mem, d: nat): Mem {
    m.(dirs := m.dirs[d := NoTables()], owner := m.owner[d := Dir])
  }

  lemma DirLookup(m: Mem, d: nat)
    requires ShapesOk(m) && d in m.owner && m.owner[d] == Held
    ensures forall e: nat, i: nat :: Entry(WithDir(m, d), e, i) == Entry(m, e, i)
    ensures forall e: nat, v: nat :: Lookup(WithDir(m, d), e, v) == Lookup(m, e, v)
    ensures forall v: nat :: Lookup(m, d, v).Absent?
  {
    assert forall e: nat, i: nat :: Entry(WithDir(m, d), e, i) == Entry(m, e, i);
  }

  lemma DirShapes(m: Mem, d: nat)
    requires ShapesOk(m) && d in m.owner && m.owner[d] == Held
    ensures ShapesOk(WithDir(m, d))
  {
  }

  lemma DirKeepsInv(m: Mem, d: nat)
    requires Inv(m) && d in m.owner && m.owner[d] == Held
    ensures Inv(WithDir(m, d))
  {
    hide Entry, Lookup, FreeOk, ShapesOk, TablesOk, UsersOk;
    var n := WithDir(m, d);
    DirLookup(m, d);
    DirShapes(m, d);
    FreeKept(m, n);
    EntriesKept(m, n);
    UsersKept(m, n);
  }

  /** Page p, owned so, is part of directory d or of its tables. */
  predicate PartOf(o: Owner, p: nat, d: nat) {
    (o == Dir && p == d) || (o.Table? && o.dir == d)
  }

  /** Directory d and its tables taken out of use; their pages are held. */
  ghost function Detached(m: Mem, d: nat): Mem {
    m.(dirs := m.dirs - {d},
       tables := map t | t in m.tables && t in m.owner && !PartOf(m.owner[t], t, d) :: m.tables[t],
       owner := map p | p in m.owner :: if PartOf(m.owner[p], p, d) then Held else m.owner[p])
  }

  lemma DetachLookup(m: Mem, d: nat)
    requires Inv(m) && d in m.dirs
    ensures forall e: nat, i: nat :: Entry(Detached(m, d), e, i) == if e == d then 0 else Entry(m, e, i)
    ensures forall e: nat, v: nat :: Lookup(Detached(m, d), e, v) == if e == d then Absent else Lookup(m, e, v)
  {
    hide FreeOk, TablesOk, UsersOk;
    var n := Detached(m, d);
    assert forall e: nat, i: nat :: Entry(n, e, i) == if e == d then 0 else Entry(m, e, i);
    forall e: nat, v: nat
      ensures Lookup(n, e, v) == if e == d then Absent else Lookup(m, e, v)
    {
      if Entry(m, e, Pdx(v)) != 0 {
        TableOf(m, e, Pdx(v));
      }
    }
  }

  lemma DetachShapes(m: Mem, d: nat)
    requires ShapesOk(m) && d in m.dirs
    ensures ShapesOk(Detached(m, d))
  {
  }

  lemma DetachTables(m: Mem, n: Mem, d: nat)
    requires TablesOk(m) && ShapesOk(m) && d in m.dirs && n.owner == Detached(m, d).owner
    requires forall e: nat, i: nat :: Entry(n, e, i) == if e == d then 0 else Entry(m, e, i)
    ensures TablesOk(n)
  {
    hide Entry;
    forall e: nat, i: nat, p | p in n.owner
      ensures EntryAt(n, e, i, p)
    {
      assert EntryAt(m, e, i, p);
    }
  }

  lemma DetachUsers(m: Mem, n: Mem, d: nat)
    requires UsersOk(m) && ShapesOk(m) && d in m.dirs && n.owner == Detached(m, d).owner
    requires forall v: nat :: v < KERNBASE ==> Lookup(m, d, v).Absent?
    requires forall e: nat, v: nat :: Lookup(n, e, v) == if e == d then Absent else Lookup(m, e, v)
    ensures UsersOk(n)
  {
    hide Lookup;
    assert forall e: nat, v: nat :: PageOf(n, e, v) == if e == d then 0 else PageOf(m, e, v);
    forall e: nat, v: nat, p | v < KERNBASE && p in n.owner
      ensures UserAt(n, e, v, p)
    {
      assert UserAt(m, e, v, p);
    }
  }

  lemma DetachKeepsInv(m: Mem, d: nat)
    requires Inv(m) && d in m.dirs
    requires forall v: nat :: v < KERNBASE ==> Lookup(m, d, v).Absent?
    ensures Inv(Detached(m, d))
  {
    hide Entry, Lookup, TablesOk, UsersOk;
    var n := Detached(m, d);
    DetachLookup(m, d);
    DetachShapes(m, d);
    DetachTables(m, n, d);
    DetachUsers(m, n, d);
    FreeKept(m, n);
  }

  // ---- What a call may change --------------------------------------------------------------------

  /** Page p, owned so, belongs to address space d. */
  predicate Belongs(o: Owner, p: nat, d: nat) {
    PartOf(o, p, d) || (o.User? && o.dir == d)
  }

  /** Page p kept its owner and contents, tables of space d apart, or went from the free list to d. */
  predicate Step(m: Mem, n: Mem, d: nat, p: nat)
    requires p in m.owner && p in n.owner
  {
    if n.owner[p] == m.owner[p] then
      && (m.owner[p] != Free ==> p in m.bytes && p in n.bytes && n.bytes[p] == m.bytes[p])
      && (p in m.tables && !PartOf(m.owner[p], p, d) ==> p in n.tables && n.tables[p] == m.tables[p])
    else
      m.owner[p] == Free && Belongs(n.owner[p], p, d)
  }

  /** Space d may have taken free pages; nothing else changed, page q apart. */
  ghost predicate Grow(m: Mem, n: Mem, d: nat, q: nat) {
    && n.owner.Keys == m.owner.Keys && n.dirs - {d} == m.dirs - {d}
    && (forall p :: p in m.owner && p != q ==> Step(m, n, d, p))
  }

  lemma GrowTrans(m: Mem, n: Mem, k: Mem, d: nat, q: nat)
    requires Grow(m, n, d, q) && Grow(n, k, d, q)
    ensures Grow(m, k, d, q)
  {
    forall p | p in m.owner && p != q
      ensures Step(m, k, d, p)
    {
      assert Step(m, n, d, p) && Step(n, k, d, p);
    }
  }

  lemma GrowAllBut(m: Mem, n: Mem, d: nat, q: nat)
    requires Grow(m, n, d, 0) && 0 !in m.owner
    ensures Grow(m, n, d, q)
  {
  }

  lemma GrowAll(m: Mem, n: Mem, d: nat, q: nat)
    requires Grow(m, n, d, q) && q in m.owner && Step(m, n, d, q)
    ensures Grow(m, n, d, 0)
  {
  }

  /** Other address spaces translate as before. */
  lemma GrowLookup(m: Mem, n: Mem, d: nat, e: nat, v: nat)
    requires Inv(m) && Grow(m, n, d, 0) && e != d
    ensures Lookup(n, e, v) == Lookup(m, e, v)
  {
    hide FreeOk, TablesOk, UsersOk;
    assert e in m.dirs <==> e in m.dirs - {d};
    assert e in n.dirs <==> e in n.dirs - {d};
    assert e in m.dirs ==> (m.dirs - {d})[e] == m.dirs[e] == (n.dirs - {d})[e] == n.dirs[e];
    if Entry(m, e, Pdx(v)) != 0 {
      TableOf(m, e, Pdx(v));
      assert Step(m, n, d, Entry(m, e, Pdx(v)));
    }
  }

  lemma PopGrow(m: Mem, d: nat)
    requires Inv(m) && m.free != []
    ensures Grow(m, Popped(m), d, m.free[0])
  {
    hide TablesOk, UsersOk;
    PopFree(m);
  }

  lemma TableGrow(m: Mem, d: nat, i: nat, t: nat)
    requires Inv(m) && d in m.dirs && i < |m.dirs[d]| && t in m.owner
    ensures Grow(m, WithTable(m, d, i, t), d, t)
  {
    hide FreeOk, TablesOk, UsersOk;
  }

  lemma MapGrow(m: Mem, d: nat, v: nat, p: nat, flags: nat)
    requires Inv(m) && Entry(m, d, Pdx(v)) != 0 && (v < KERNBASE ==> p in m.owner)
    ensures Entry(m, d, Pdx(v)) in m.tables && |m.tables[Entry(m, d, Pdx(v))]| == NENTRIES
    ensures Grow(m, Mapped(m, d, v, p, flags), d, if v < KERNBASE then p else 0)
  {
    hide FreeOk, TablesOk, UsersOk;
    TableOf(m, d, Pdx(v));
  }

  lemma DirGrow(m: Mem, d: nat)
    requires Inv(m) && d in m.owner && m.owner[d] == Held
    ensures Grow(m, WithDir(m, d), d, d)
  {
    hide FreeOk, TablesOk, UsersOk;
  }

  /** Page p went back to the free list if it is in R, and else kept its owner and contents, tables
      of space d apart. */
  ghost predicate Back(m: Mem, n: Mem, d: nat, p: nat, R: set<nat>)
    requires p in m.owner && p in n.owner
  {
    if p in R then n.owner[p] == Free else Step(m, n, d, p) && n.owner[p] == m.owner[p]
  }

  /** The pages in R went back to the free list, and nothing else changed. */
  ghost predicate Returned(m: Mem, n: Mem, d: nat, R: set<nat>) {
    n.owner.Keys == m.owner.Keys && forall p :: p in m.owner ==> Back(m, n, d, p, R)
  }

  lemma ReturnedTrans(m: Mem, n: Mem, k: Mem, d: nat, R: set<nat>, S: set<nat>)
    requires Returned(m, n, d, R) && Returned(n, k, d, S)
    ensures Returned(m, k, d, R + S)
  {
    forall p | p in m.owner
      ensures Back(m, k, d, p, R + S)
    {
      assert Back(m, n, d, p, R) && Back(n, k, d, p, S);
    }
  }

  /** The pages mapped in d at virtual pages lo up to hi. */
  ghost function UserPages(m: Mem, d: nat, lo: nat, hi: nat): set<nat> {
    set p | p in m.owner && m.owner[p].User? && m.owner[p].dir == d && lo <= m.owner[p].vpn < hi
  }

  /** The user mappings of d from lo up to hi were removed, their pages freed, and nothing else
      changed. */
  ghost predicate Cleared(m: Mem, c: Mem, d: nat, lo: nat, hi: nat) {
    && c.dirs == m.dirs && Returned(m, c, d, UserPages(m, d, lo, hi))
    && (forall e: nat, w: nat :: Lookup(c, e, w) == if e == d && lo <= w < hi then Absent else Lookup(m, e, w))
  }

  lemma ClearedNone(m: Mem, d: nat, lo: nat)
    requires Inv(m)
    ensures Cleared(m, m, d, lo, lo)
  {
    hide FreeOk, TablesOk, UsersOk, Lookup;
  }

  /** Where nothing is mapped there is no page to free. */
  lemma NoPagesThere(m: Mem, d: nat, lo: nat, a: nat, b: nat)
    requires Inv(m) && lo <= a <= b <= KERNBASE
    requires forall w: nat :: a <= w < b ==> Lookup(m, d, w).Absent?
    ensures UserPages(m, d, lo, b) == UserPages(m, d, lo, a)
  {
    hide FreeOk, TablesOk, Lookup;
    forall p | p in UserPages(m, d, lo, b)
      ensures p in UserPages(m, d, lo, a)
    {
      assert UserAt(m, d, m.owner[p].vpn, p);
    }
  }

  lemma ClearedSkip(m: Mem, c: Mem, d: nat, lo: nat, a: nat, b: nat)
    requires Inv(m) && Cleared(m, c, d, lo, a) && lo <= a <= b <= KERNBASE
    requires forall w: nat :: a <= w < b ==> Lookup(c, d, w).Absent?
    ensures Cleared(m, c, d, lo, b)
  {
    hide Inv, Lookup, Returned, UserPages;
    forall w: nat | a <= w < b
      ensures Lookup(m, d, w).Absent?
    {
      assert Lookup(c, d, w).Absent?;
    }
    NoPagesThere(m, d, lo, a, b);
  }

  /** No table, no mappings. */
  lemma NoTableNoPages(m: Mem, d: nat, a: nat, w: nat)
    requires Entry(m, d, Pdx(a)) == 0 && a <= w < (Pdx(a) + 1) * NENTRIES
    ensures Lookup(m, d, w).Absent?
  {
    assert Pdx(w) == Pdx(a);
  }

  /** The first virtual page of the next table. */
  function NextTable(a: nat): (b: nat)
    ensures a < b
  {
    (Pdx(a) + 1) * NENTRIES
  }

  /** Skipping the rest of an absent table misses nothing. */
  lemma ClearedTable(m: Mem, c: Mem, d: nat, lo: nat, a: nat, hi: nat)
    requires Inv(m) && Cleared(m, c, d, lo, a) && lo <= a < hi <= KERNBASE && Entry(c, d, Pdx(a)) == 0
    ensures Cleared(m, c, d, lo, Least(NextTable(a), hi))
  {
    hide Inv, Lookup, Cleared;
    forall w: nat | a <= w < Least(NextTable(a), hi)
      ensures Lookup(c, d, w).Absent?
    {
      NoTableNoPages(c, d, a, w);
    }
    ClearedSkip(m, c, d, lo, a, Least(NextTable(a), hi));
  }

  /** Removing the mapping of v and freeing its page. */
  lemma ClearOne(m: Mem, d: nat, v: nat)
    requires Inv(m) && Entry(m, d, Pdx(v)) != 0 && PageOf(m, d, v) != 0 && v < KERNBASE
    ensures Entry(m, d, Pdx(v)) in m.tables && |m.tables[Entry(m, d, Pdx(v))]| == NENTRIES
    ensures var k := Pushed(Unmapped(m, d, v), PageOf(m, d, v)); Inv(k) && Cleared(m, k, d, v, v + 1)
  {
    hide Inv, Lookup, Entry, Returned;
    var p := PageOf(m, d, v);
    UnmapKeepsInv(m, d, v);
    UnmapLookup(m, d, v);
    var n := Unmapped(m, d, v);
    PushKeepsInv(n, p);
    SameTables(n, Pushed(n, p));
    OnePage(m, d, v);
    UnmapReturns(m, d, v);
  }

  lemma OnePage(m: Mem, d: nat, v: nat)
    requires Inv(m) && v < KERNBASE && PageOf(m, d, v) != 0
    ensures UserPages(m, d, v, v + 1) == {PageOf(m, d, v)}
  {
    hide FreeOk, TablesOk, Lookup;
    assert UserAt(m, d, v, PageOf(m, d, v));
    forall p | p in m.owner && p in UserPages(m, d, v, v + 1)
      ensures p == PageOf(m, d, v)
    {
      assert UserAt(m, d, v, p);
    }
  }

  lemma UnmapReturns(m: Mem, d: nat, v: nat)
    requires Inv(m) && Entry(m, d, Pdx(v)) != 0 && PageOf(m, d, v) != 0 && v < KERNBASE
    ensures Entry(m, d, Pdx(v)) in m.tables && |m.tables[Entry(m, d, Pdx(v))]| == NENTRIES
    ensures Returned(m, Pushed(Unmapped(m, d, v), PageOf(m, d, v)), d, {PageOf(m, d, v)})
  {
    hide FreeOk, TablesOk, UsersOk, Lookup, PageOf, Entry;
    TableOf(m, d, Pdx(v));
    UnmapKeepsInv(m, d, v);
  }

  lemma ClearedMore(m: Mem, c: Mem, k: Mem, d: nat, lo: nat, a: nat)
    requires Inv(m) && Inv(c) && Cleared(m, c, d, lo, a) && Cleared(c, k, d, a, a + 1) && lo <= a < KERNBASE
    ensures Cleared(m, k, d, lo, a + 1)
  {
    hide Inv, Lookup, Returned, UserPages;
    ReturnedTrans(m, c, k, d, UserPages(m, d, lo, a), UserPages(c, d, a, a + 1));
    PagesLeft(m, c, d, lo, a);
  }

  lemma PagesLeft(m: Mem, c: Mem, d: nat, lo: nat, a: nat)
    requires Returned(m, c, d, UserPages(m, d, lo, a)) && lo <= a
    ensures UserPages(m, d, lo, a + 1) == UserPages(m, d, lo, a) + UserPages(c, d, a, a + 1)
  {
    forall p | p in m.owner
      ensures p in UserPages(m, d, lo, a + 1) <==> p in UserPages(m, d, lo, a) || p in UserPages(c, d, a, a + 1)
    {
      assert Back(m, c, d, p, UserPages(m, d, lo, a));
    }
  }

  // ---- Freeing an address space --------------------------------------------------------------------

  ghost function PagesOf(m: Mem, d: nat): set<nat> {
    set p | p in m.owner && Belongs(m.owner[p], p, d)
  }

  /** The tables that the first i entries of a directory refer to. */
  function TablesIn(pgdir: seq<nat>, i: nat): set<nat>
    requires i <= |pgdir|
  {
    set t | t in pgdir[..i] && t != 0
  }

  lemma TablesInStep(pgdir: seq<nat>, i: nat)
    requires i < |pgdir|
    ensures TablesIn(pgdir, i + 1) == TablesIn(pgdir, i) + if pgdir[i] != 0 then {pgdir[i]} else {}
  {
    assert pgdir[..i + 1] == pgdir[..i] + [pgdir[i]];
  }

  /** The tables of d are exactly the pages its owner map marks so, each in one entry. */
  lemma DirTables(m: Mem, d: nat)
    requires Inv(m) && d in m.dirs
    ensures |m.dirs[d]| == NENTRIES
    ensures forall p :: p in TablesIn(m.dirs[d], NENTRIES) <==> p in m.owner && m.owner[p].Table? && m.owner[p].dir == d
    ensures forall i: nat :: i < NENTRIES && m.dirs[d][i] != 0 ==> m.dirs[d][i] !in TablesIn(m.dirs[d], i)
  {
    hide FreeOk, UsersOk;
    var pgdir := m.dirs[d];
    forall p | p in m.owner && m.owner[p].Table? && m.owner[p].dir == d
      ensures p in TablesIn(pgdir, NENTRIES)
    {
      assert EntryAt(m, d, m.owner[p].index, p);
      assert pgdir[m.owner[p].index] == p && pgdir[..NENTRIES] == pgdir;
    }
    forall i: nat | i < NENTRIES && pgdir[i] != 0
      ensures pgdir[i] in m.owner && m.owner[pgdir[i]] == Table(d, i) && pgdir[i] !in TablesIn(pgdir, i)
    {
      assert Entry(m, d, i) == pgdir[i];
      TableOf(m, d, i);
      forall j: nat | j < i
        ensures pgdir[j] != pgdir[i]
      {
        assert Entry(m, d, j) == pgdir[j];
      }
    }
    forall p | p in TablesIn(pgdir, NENTRIES)
      ensures p in m.owner && m.owner[p].Table? && m.owner[p].dir == d
    {
      var i: nat :| i < NENTRIES && pgdir[i] == p;
      assert Entry(m, d, i) == p;
      assert m.owner[pgdir[i]] == Table(d, i);
    }
  }

  lemma PushReturns(m: Mem, p: nat, d: nat)
    requires Inv(m) && p in m.owner && m.owner[p] == Held
    ensures Returned(m, Pushed(m, p), d, {p})
  {
    hide FreeOk, TablesOk, UsersOk;
  }

  /** Space d is gone: its pages are free, and nothing else changed. */
  ghost predicate Released(m: Mem, k: Mem, d: nat) {
    && k.dirs == m.dirs - {d} && Returned(m, k, d, PagesOf(m, d))
    && (forall e: nat, w: nat :: Lookup(k, e, w) == if e == d then Absent else Lookup(m, e, w))
  }

  lemma PageReleased(m: Mem, m1: Mem, k: Mem, d: nat, T: set<nat>, p: nat)
    requires p in m.owner && p in m1.owner && p in k.owner && ShapesOk(m) && ShapesOk(m1) && d in m1.dirs &&
      m1.dirs == m.dirs
    requires m.owner[p].User? ==> m.owner[p].vpn < KERNBASE
    requires p in T <==> m1.owner[p].Table? && m1.owner[p].dir == d
    requires Back(m, m1, d, p, UserPages(m, d, 0, KERNBASE))
    requires Back(Detached(m1, d), k, d, p, T + {d})
    ensures Back(m, k, d, p, PagesOf(m, d))
  {
  }

  /** Unmapping the user pages, then freeing the tables and the directory, releases the space. */
  lemma ReleasedAll(m: Mem, m1: Mem, k: Mem, d: nat)
    requires Inv(m) && Inv(m1) && d in m.dirs && Cleared(m, m1, d, 0, KERNBASE)
    requires |m1.dirs[d]| == NENTRIES
    requires Returned(Detached(m1, d), k, d, TablesIn(m1.dirs[d], NENTRIES) + {d})
    requires k.dirs == Detached(m1, d).dirs && k.tables == Detached(m1, d).tables
    ensures Released(m, k, d)
  {
    hide FreeOk, ShapesOk, TablesOk, Lookup, Entry, TablesIn, Back, UserPages, PagesOf, Step;
    var n := Detached(m1, d);
    DetachLookup(m1, d);
    SameTables(n, k);
    DirTables(m1, d);
    forall p | p in m.owner
      ensures Back(m, k, d, p, PagesOf(m, d))
    {
      PageReleased(m, m1, k, d, TablesIn(m1.dirs[d], NENTRIES), p);
    }
  }

  lemma TablesDropped(m: Mem, d: nat)
    requires Inv(m) && d in m.dirs
    ensures |m.dirs[d]| == NENTRIES && m.tables - TablesIn(m.dirs[d], NENTRIES) == Detached(m, d).tables
  {
    hide FreeOk, TablesOk, UsersOk, TablesIn;
    DirTables(m, d);
  }

  /** A table not freed yet is held. */
  lemma TableHeld(m1: Mem, c: Mem, d: nat, i: nat)
    requires Inv(m1) && d in m1.dirs && |m1.dirs[d]| == NENTRIES && i < NENTRIES && m1.dirs[d][i] != 0
    requires Returned(Detached(m1, d), c, d, TablesIn(m1.dirs[d], i))
    ensures m1.dirs[d][i] in c.owner && c.owner[m1.dirs[d][i]] == Held
  {
    hide FreeOk, UsersOk, TablesIn;
    var p := m1.dirs[d][i];
    DirTables(m1, d);
    assert Entry(m1, d, i) == p;
    TableOf(m1, d, i);
    assert Back(Detached(m1, d), c, d, p, TablesIn(m1.dirs[d], i));
  }

  lemma DirHeld(m1: Mem, c: Mem, d: nat)
    requires Inv(m1) && d in m1.dirs && |m1.dirs[d]| == NENTRIES
    requires Returned(Detached(m1, d), c, d, TablesIn(m1.dirs[d], NENTRIES))
    ensures d in c.owner && c.owner[d] == Held
  {
    hide FreeOk, TablesOk, UsersOk, TablesIn;
    DirTables(m1, d);
    assert Back(Detached(m1, d), c, d, d, TablesIn(m1.dirs[d], NENTRIES));
  }

  lemma ReturnedNone(m: Mem, d: nat)
    requires Inv(m)
    ensures Returned(m, m, d, {})
  {
    hide FreeOk, TablesOk, UsersOk;
  }

  // ---- What the invariant means --------------------------------------------------------------------

  /** Page p is mapped for a user somewhere. */
  ghost predicate IsMapped(m: Mem, p: nat) {
    exists d: nat, v: nat :: v < KERNBASE && PageOf(m, d, v) == p
  }

  /** A page that is not held elsewhere is in exactly one of the free list, the directories, the
      tables and the user mappings; a table is in one directory entry, a user page in one mapping. */
  lemma OnePlace(m: Mem, p: nat)
    requires Inv(m) && p in m.owner && m.owner[p] != Held
    ensures p in m.free || p in m.dirs || p in m.tables || IsMapped(m, p)
    ensures !(p in m.free && p in m.dirs) && !(p in m.free && p in m.tables) && !(p in m.dirs && p in m.tables)
    ensures IsMapped(m, p) ==> p !in m.free && p !in m.dirs && p !in m.tables
    ensures forall d: nat, i: nat, e: nat, j: nat :: Entry(m, d, i) == p && Entry(m, e, j) == p ==> d == e && i == j
    ensures forall d: nat, v: nat, e: nat, w: nat ::
      v < KERNBASE && w < KERNBASE && PageOf(m, d, v) == p && PageOf(m, e, w) == p ==> d == e && v == w
  {
    hide Entry, PageOf;
    forall d: nat, i: nat
      ensures Entry(m, d, i) == p ==> m.owner[p] == Table(d, i)
    {
      assert EntryAt(m, d, i, p);
    }
    forall d: nat, v: nat | v < KERNBASE
      ensures PageOf(m, d, v) == p <==> m.owner[p] == User(d, v)
    {
      assert UserAt(m, d, v, p);
    }
  }

  // ---- How many pages a call takes --------------------------------------------------------------------

  /** 1 if entry i of d has no table yet. */
  function NewTable(m: Mem, d: nat, i: nat): nat {
    if Entry(m, d, i) == 0 then 1 else 0
  }

  /** How many of the entries from lo up to hi have no table yet. */
  function NewTables(m: Mem, d: nat, lo: nat, hi: nat): nat
    decreases hi
  {
    if hi <= lo then 0 else NewTables(m, d, lo, hi - 1) + NewTable(m, d, hi - 1)
  }

  lemma {:induction false} MoreTables(m: Mem, d: nat, lo: nat, a: nat, b: nat)
    requires a <= b
    ensures NewTables(m, d, lo, a) <= NewTables(m, d, lo, b)
    decreases b
  {
    if a < b && lo < b {
      MoreTables(m, d, lo, a, b - 1);
    }
  }

  /** The entry after the last one that the virtual pages from lo up to a need. */
  function TablesUpTo(lo: nat, a: nat): nat {
    if a <= lo then Pdx(lo) else Pdx(a - 1) + 1
  }

  /** From m to c the tables for the pages from lo up to a were made, and so many other pages taken. */
  ghost predicate Spent(m: Mem, c: Mem, d: nat, lo: nat, a: nat, pages: nat) {
    && |c.free| + pages + NewTables(m, d, Pdx(lo), TablesUpTo(lo, a)) == |m.free|
    && (forall i: nat :: Entry(c, d, i) != 0 <==> Entry(m, d, i) != 0 || Pdx(lo) <= i < TablesUpTo(lo, a))
  }

  lemma SpentNothing(m: Mem, d: nat, lo: nat)
    ensures Spent(m, m, d, lo, lo, 0)
  {
  }

  lemma NextPage(lo: nat, a: nat)
    requires lo <= a
    ensures TablesUpTo(lo, a + 1) == Pdx(a) + 1 && Pdx(lo) <= Pdx(a)
    ensures TablesUpTo(lo, a) == Pdx(a) || TablesUpTo(lo, a) == Pdx(a) + 1
  {
  }

  /** The table for page a is there, made if it was missing; and so many more pages were taken. */
  lemma SpentMore(m: Mem, c: Mem, n: Mem, d: nat, lo: nat, a: nat, pages: nat, more: nat)
    requires Spent(m, c, d, lo, a, pages) && lo <= a
    requires |n.free| + more + NewTable(c, d, Pdx(a)) == |c.free|
    requires forall i: nat :: Entry(n, d, i) != 0 <==> Entry(c, d, i) != 0 || i == Pdx(a)
    ensures Spent(m, n, d, lo, a + 1, pages + more)
  {
    hide Entry, Pdx;
    NextPage(lo, a);
  }

  /** Running short at page a: there were too few free pages for the whole range. */
  lemma SpentShort(m: Mem, c: Mem, d: nat, lo: nat, a: nat, hi: nat, pages: nat, more: nat)
    requires Spent(m, c, d, lo, a, pages) && lo <= a < hi && |c.free| < more + NewTable(c, d, Pdx(a))
    ensures |m.free| < pages + more + NewTables(m, d, Pdx(lo), TablesUpTo(lo, hi))
  {
    hide Entry, Pdx;
    NextPage(lo, a);
    NextPage(lo, hi - 1);
    PdxOrder(a, hi - 1);
    MoreTables(m, d, Pdx(lo), Pdx(a) + 1, Pdx(hi - 1) + 1);
  }

  lemma PdxOrder(a: nat, b: nat)
    requires a <= b
    ensures Pdx(a) <= Pdx(b)
  {
  }

  /** There are enough free pages for user pages from lo up to hi and their tables. */
  predicate Enough(m: Mem, d: nat, lo: nat, hi: nat) {
    lo <= hi && |m.free| >= hi - lo + NewTables(m, d, Pdx(lo), TablesUpTo(lo, hi))
  }
}
