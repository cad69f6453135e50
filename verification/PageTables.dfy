/** The page allocator and the operations on address spaces, over memory that is updated in place. */
module PageTables {
  import opened PageSpec
  import opened SpaceSpec
  import opened Wrappers

  class Memory {
    var free: seq<nat>
    var dirs: map<nat, seq<nat>>
    var tables: map<nat, seq<Pte>>
    var bytes: map<nat, Bytes>
    ghost var owner: map<nat, Owner>

    ghost function State(): Mem
      reads this
    {
      Mem(free, dirs, tables, bytes, owner)
    }

    ghost predicate Valid()
      reads this
    {
      Inv(State())
    }

    /** At boot every page is held; the ranges given to Freerange become the free list. */
    constructor (pages: set<nat>)
      requires 0 !in pages
      ensures Valid() && owner.Keys == pages && forall p :: p in pages ==> owner[p] == Held
    {
      free, dirs, tables := [], map[], map[];
      bytes := map p | p in pages :: Filled(0);
      owner := map p | p in pages :: Held;
    }

    /** freerange: the pages from lo up to hi become free. */
    method Freerange(lo: nat, hi: nat)
      requires Valid() && lo <= hi && forall p: nat :: lo <= p < hi ==> p in owner && owner[p] == Held
      modifies this
      ensures Valid() && dirs == old(dirs) && tables == old(tables) && owner.Keys == old(owner).Keys
      ensures forall p :: p in owner ==> owner[p] == if lo <= p < hi then Free else old(owner)[p]
    {
      hide Inv;
      var p := lo;
      while p < hi
        invariant lo <= p <= hi && Valid() && dirs == old(dirs) && tables == old(tables) &&
          owner.Keys == old(owner).Keys
        invariant forall q :: q in owner ==> owner[q] == if lo <= q < p then Free else old(owner)[q]
      {
        Kfree(p);
        p := p + 1;
      }
    }

    /** kalloc: the first page of the free list, or 0. */
    method Kalloc() returns (p: nat)
      requires Valid()
      modifies this
      ensures Valid()
      ensures p == 0 <==> old(free) == []
      ensures p == 0 ==> State() == old(State())
      ensures p != 0 ==> p == old(free)[0] && State() == Popped(old(State()))
    {
      hide Inv;
      if free == [] {
        return 0;
      }
      PopKeepsInv(State());
      p := free[0];
      owner := owner[p := Held];
      free := free[1..];
    }

    /** kfree: the page, filled with junk, goes to the front of the free list. */
    method Kfree(p: nat)
      requires Valid() && p in owner && owner[p] == Held
      modifies this
      ensures Valid() && State() == Pushed(old(State()), p)
      ensures free == [p] + old(free) && p in bytes && bytes[p] == seq(4096, _ => 1)
    {
      hide Inv;
      PushKeepsInv(State(), p);
      bytes := bytes[p := Filled(1)];
      owner := owner[p := Free];
      free := [p] + free;
    }

    /** walkpgdir: whether virtual page v has a table, after making one if asked and possible. */
    method Walkpgdir(d: nat, v: nat, alloc: bool) returns (ok: bool)
      requires Valid() && d in dirs && Pdx(v) < NENTRIES
      modifies this
      ensures Valid() && d in dirs
      ensures ok <==> Entry(State(), d, Pdx(v)) != 0
      ensures !alloc || !ok ==> State() == old(State())
      ensures alloc && !ok ==> free == []
      ensures alloc && ok ==> |free| + NewTable(old(State()), d, Pdx(v)) == |old(free)|
      ensures alloc && ok ==> forall i: nat :: Entry(State(), d, i) != 0 <==>
        Entry(old(State()), d, i) != 0 || i == Pdx(v)
      ensures Grow(old(State()), State(), d, 0)
      ensures forall e: nat, w: nat :: Lookup(State(), e, w) == Lookup(old(State()), e, w)
    {
      hide Inv, Grow, Lookup;
      SelfGrow(State(), d);
      if dirs[d][Pdx(v)] != 0 {
        return true;
      }
      if !alloc {
        return false;
      }
      var t := Kalloc();
      if t == 0 {
        return false;
      }
      ghost var m := State();
      WalkAdds(old(State()), d, Pdx(v));
      dirs := dirs[d := dirs[d][Pdx(v) := t]];
      tables := tables[t := NoEntries()];
      owner := owner[t := Table(d, Pdx(v))];
      assert State() == WithTable(m, d, Pdx(v), t);
      ok := true;
    }

    /** Writes the entry of virtual page v, which has a table. */
    method SetPte(d: nat, v: nat, p: nat, flags: nat)
      requires Valid() && d in dirs && Pdx(v) < NENTRIES && Entry(State(), d, Pdx(v)) != 0 &&
        Lookup(State(), d, v).Absent?
      requires v < KERNBASE ==> p in owner && owner[p] == Held
      modifies `tables, `owner
      ensures Valid() && Grow(old(State()), State(), d, Taken(v, p))
      ensures v < KERNBASE ==> p in owner && owner[p] == User(d, v)
      ensures forall e: nat, w: nat ::
        Lookup(State(), e, w) == if e == d && w == v then Present(p, flags) else Lookup(old(State()), e, w)
    {
      hide Inv, Grow, Lookup;
      ghost var m := State();
      MapKeepsInv(m, d, v, p, flags);
      MapLookup(m, d, v, p, flags);
      MapGrow(m, d, v, p, flags);
      SelfGrow(m, d);
      var t := dirs[d][Pdx(v)];
      tables := tables[t := tables[t][Ptx(v) := Present(p, flags)]];
      if v < KERNBASE {
        owner := owner[p := User(d, v)];
      }
      assert State() == Mapped(m, d, v, p, flags);
    }

    /** mappages: n virtual pages from v on, mapped to the pages from p on; it may fail half way for
        want of a page for a table. None of them may be mapped already. */
    method Mappages(d: nat, v: nat, n: nat, p: nat, flags: nat) returns (ok: bool)
      requires Valid() && d in dirs && n >= 1 && v + n <= VPAGES
      requires forall w: nat :: v <= w < v + n ==> Lookup(State(), d, w).Absent?
      requires v >= KERNBASE || (n == 1 && p in owner && owner[p] == Held)
      modifies this
      ensures Valid() && d in dirs && Grow(old(State()), State(), d, Taken(v, p))
      ensures v < KERNBASE ==> p in owner && owner[p] == if ok then User(d, v) else Held
      ensures v < KERNBASE ==> p in bytes && p in old(bytes) && bytes[p] == old(bytes)[p]
      ensures ok ==> Maps(old(State()), State(), d, v, n, p, flags)
      ensures !ok ==> exists k: nat :: k < n && Maps(old(State()), State(), d, v, k, p, flags)
      ensures ok ==> Spent(old(State()), State(), d, v, v + n, 0)
      ensures !ok ==> |old(free)| < NewTables(old(State()), d, Pdx(v), TablesUpTo(v, v + n))
    {
      hide Inv, Grow, Lookup, Entry, Maps, Mapping, Spent, NewTables;
      ghost var m := State();
      MappingStarts(m, d, v, n, p, flags);
      SpentNothing(m, d, v);
      var a, last, pa := v, v + n - 1, p;
      while true
        invariant v <= a <= last && pa == p + (a - v)
        invariant Mapping(m, State(), d, v, n, a - v, p, flags) && Spent(m, State(), d, v, a, 0)
        decreases last - a
      {
        ghost var c := State();
        MappingMeans(m, c, d, v, n, a - v, p, flags);
        var found := Walkpgdir(d, a, true);
        MappingWalks(m, c, State(), d, v, n, a - v, p, flags);
        if !found {
          SpentShort(m, c, d, v, a, v + n, 0, 0);
          MappingMeans(m, State(), d, v, n, a - v, p, flags);
          return false;
        }
        SpentMore(m, c, State(), d, v, a, 0, 0);
        c := State();
        MappingMeans(m, c, d, v, n, a - v, p, flags);
        SetPte(d, a, pa, flags);
        SpentSame(m, c, State(), d, v, a + 1, 0);
        MappingWrites(m, c, State(), d, v, n, a - v, p, flags);
        if a == last {
          break;
        }
        a, pa := a + 1, pa + 1;
      }
      ok := true;
    }

    /** deallocuvm: unmaps and frees user pages to shrink from oldsz to newsz bytes, skipping over
        absent tables. Nothing is left mapped in the range. */
    method Deallocuvm(d: nat, oldsz: nat, newsz: nat) returns (r: nat)
      requires Valid() && d in dirs && oldsz <= USERTOP
      modifies this
      ensures Valid() && r == if newsz >= oldsz then oldsz else newsz
      ensures newsz >= oldsz ==> State() == old(State())
      ensures newsz < oldsz ==> Cleared(old(State()), State(), d, RoundUp(newsz), RoundUp(oldsz))
      ensures forall e: nat, v: nat ::
        Lookup(State(), e, v) == if e == d && newsz <= v * PGSIZE < oldsz then Absent else Lookup(old(State()), e, v)
      ensures owner.Keys == old(owner.Keys)
      ensures forall p :: p in owner ==>
        var was := old(owner)[p];
        owner[p] == if was.User? && was.dir == d && newsz <= was.vpn * PGSIZE < oldsz then Free else was
    {
      if newsz >= oldsz {
        return oldsz;
      }
      ClearRange(d, RoundUp(newsz), RoundUp(oldsz));
      ShrinkSeen(old(State()), State(), d, oldsz, newsz);
      r := newsz;
    }

    /** deallocuvm's loop. */
    method ClearRange(d: nat, lo: nat, hi: nat)
      requires Valid() && d in dirs && lo <= hi <= KERNBASE
      modifies this
      ensures Valid() && Cleared(old(State()), State(), d, lo, hi)
    {
      hide Inv, Lookup, Entry, Cleared, Grow, Pdx, NextTable;
      ghost var m := State();
      var a := lo;
      ClearedNone(m, d, lo);
      while a < hi
        invariant lo <= a && Valid() && d in dirs
        invariant Cleared(m, State(), d, lo, Least(a, hi))
        decreases hi - a
      {
        UserIndex(a);
        var found := Walkpgdir(d, a, false);
        ghost var c := State();
        if !found {
          ClearedTable(m, c, d, lo, a, hi);
          a := NextTable(a) - 1;
        } else {
          var present := ClearPte(d, a);
          if present {
            ClearedMore(m, c, State(), d, lo, a);
          } else {
            ClearedSkip(m, c, d, lo, a, a + 1);
          }
        }
        a := a + 1;
      }
    }

    /** Unmaps user page v, which has a table, and frees its page, if it is mapped. */
    method ClearPte(d: nat, v: nat) returns (present: bool)
      requires Valid() && d in dirs && v < KERNBASE && Entry(State(), d, Pdx(v)) != 0
      modifies this
      ensures Valid() && dirs == old(dirs)
      ensures present <==> Lookup(old(State()), d, v).Present?
      ensures present ==> Cleared(old(State()), State(), d, v, v + 1)
      ensures !present ==> State() == old(State())
    {
      hide Inv, Cleared;
      ghost var m := State();
      TableOf(m, d, Pdx(v));
      SelfGrow(m, d);
      var t := dirs[d][Pdx(v)];
      match tables[t][Ptx(v)]
      case Absent =>
        present := false;
      case Present(p, _) =>
        UserPage(m, d, v);
        ClearOne(m, d, v);
        UnmapKeepsInv(m, d, v);
        tables := tables[t := tables[t][Ptx(v) := Absent]];
        owner := owner[p := Held];
        assert State() == Unmapped(m, d, v);
        Kfree(p);
        present := true;
    }

    /** The directory and its tables, without user mappings, stop being page tables. */
    method DropDir(d: nat) returns (pgdir: seq<nat>)
      requires Valid() && d in dirs
      requires forall v: nat :: v < KERNBASE ==> Lookup(State(), d, v).Absent?
      modifies `dirs, `tables, `owner
      ensures Valid() && State() == Detached(old(State()), d) && pgdir == old(dirs)[d]
    {
      hide Inv, Lookup, TablesIn;
      TablesDropped(State(), d);
      DetachKeepsInv(State(), d);
      pgdir := dirs[d];
      owner := Detached(State(), d).owner;
      tables := tables - TablesIn(pgdir, NENTRIES);
      dirs := dirs - {d};
    }

    /** freevm's loop over the directory; m is memory before the directory was dropped. */
    method FreeTables(pgdir: seq<nat>, ghost m: Mem, ghost d: nat)
      requires Valid() && Inv(m) && d in m.dirs && pgdir == m.dirs[d] && |pgdir| == NENTRIES
      requires State() == Detached(m, d)
      modifies this
      ensures Valid() && dirs == old(dirs) && tables == old(tables)
      ensures Returned(old(State()), State(), d, TablesIn(pgdir, NENTRIES))
    {
      hide Inv, Detached, Returned, TablesIn;
      ReturnedNone(State(), d);
      assert TablesIn(pgdir, 0) == {} by { NoTablesYet(pgdir); }
      for i := 0 to NENTRIES
        invariant Valid() && dirs == old(dirs) && tables == old(tables)
        invariant Returned(old(State()), State(), d, TablesIn(pgdir, i))
      {
        TablesInStep(pgdir, i);
        if pgdir[i] != 0 {
          ghost var c := State();
          TableHeld(m, c, d, i);
          PushReturns(c, pgdir[i], d);
          Kfree(pgdir[i]);
          ReturnedTrans(old(State()), c, State(), d, TablesIn(pgdir, i), {pgdir[i]});
        } else {
          assert TablesIn(pgdir, i + 1) == TablesIn(pgdir, i);
        }
      }
    }

    /** freevm: every page of the address space, user pages, tables and directory, goes back to the
        free list, and no other page is touched. */
    method Freevm(d: nat)
      requires Valid() && d in dirs
      modifies this
      ensures Valid() && Released(old(State()), State(), d)
    {
      hide Inv, Lookup, Released, Returned, TablesIn, Detached;
      ghost var m := State();
      ClearRange(d, 0, KERNBASE);
      ghost var m1 := State();
      TablesDropped(m1, d);
      var pgdir := DropDir(d);
      ghost var n := State();
      FreeTables(pgdir, m1, d);
      ghost var c := State();
      DirHeld(m1, c, d);
      PushReturns(c, d, d);
      Kfree(d);
      ReturnedTrans(n, c, State(), d, TablesIn(pgdir, NENTRIES), {d});
      ReleasedAll(m, m1, State(), d);
    }

    /** setupkvm: a new space with the kernel's mappings and no user pages, or 0 with nothing
        changed. */
    method Setupkvm(data: nat) returns (d: nat)
      requires Valid() && EXTMEM < data < PHYSTOP
      modifies this
      ensures Valid()
      ensures d == 0 ==> Unchanged(old(State()), State())
      ensures d != 0 ==> Copied(old(State()), State(), 0, d, 0, KernelMap(data))
      ensures d != 0 ==> forall v: nat :: KERNBASE <= v < KERNBASE + PHYSTOP ==>
        Lookup(State(), d, v) == Present(v - KERNBASE, if KERNBASE + EXTMEM <= v < KERNBASE + data then 0 else PTE_W)
      ensures d != 0 ==> forall v: nat :: DEVSPACE <= v < VPAGES ==> Lookup(State(), d, v) == Present(v, PTE_W)
      ensures d != 0 ==> forall v: nat :: v < KERNBASE || KERNBASE + PHYSTOP <= v < DEVSPACE || VPAGES <= v ==>
        Lookup(State(), d, v) == Absent
      ensures d != 0 ==> forall v: nat :: Lookup(State(), d, v).Present? ==>
        Lookup(State(), d, v).flags / PTE_U % 2 == 0
      ensures d != 0 <==> |old(free)| >= KERNELPAGES
      ensures d != 0 ==> |free| + KERNELPAGES == |old(free)| && forall j: nat :: j < Pdx(KERNBASE) ==>
        Entry(State(), d, j) == 0
    {
      hide Inv, Lookup, Entry, Grow, Released, Unchanged, KernelPte, Spent, KernelSpent, NewTables, TablesFor;
      ghost var m := State();
      KernelTablesBelow(data, NENTRIES);
      d := Kalloc();
      if d == 0 {
        SameUnchanged(m);
        return;
      }
      ghost var c := State();
      NewDir(m, d);
      dirs := dirs[d := NoTables()];
      owner := owner[d := Dir];
      assert State() == WithDir(c, d);
      var ks := KernelMap(data);
      for i := 0 to |ks|
        invariant Valid() && d in dirs && Grow(m, State(), d, 0) && HasMaps(State(), d, ks[..i])
        invariant KernelSpent(m, State(), d, ks[..i])
      {
        c := State();
        RoomForMap(c, d, ks, i);
        var ok := Mappages(d, ks[i].virt, ks[i].n, ks[i].start, ks[i].perm);
        GrowTrans(m, c, State(), d, 0);
        if !ok {
          KernelShort(m, c, d, ks, i);
          c := State();
          Freevm(d);
          Undone(m, c, State(), d);
          return 0;
        }
        MapAdded(c, State(), d, ks, i);
        KernelMore(m, c, State(), d, ks, i);
      }
      assert ks[..|ks|] == ks;
      KernelDone(m, State(), d, data);
      KernelSeen(State(), d, data);
    }

    /** kalloc, fill and map one user page, as allocuvm and copyuvm do. On failure mem is 0, or a page
        the caller still has to free. */
    method AddPage(d: nat, v: nat, content: Bytes, flags: nat) returns (mem: nat, ok: bool)
      requires Valid() && d in dirs && v < KERNBASE && Lookup(State(), d, v).Absent?
      modifies this
      ensures Valid() && d in dirs
      ensures ok ==> Added(old(State()), State(), d, v, mem, flags, content)
      ensures !ok ==> Restored(old(State()), State(), d, mem)
      ensures !ok && mem != 0 ==> mem in old(owner) && old(owner)[mem] == Free && mem in owner && owner[mem] == Held
      ensures ok ==> |free| + 1 + NewTable(old(State()), d, Pdx(v)) == |old(free)|
      ensures ok ==> forall i: nat :: Entry(State(), d, i) != 0 <==> Entry(old(State()), d, i) != 0 || i == Pdx(v)
      ensures !ok ==> |old(free)| < 1 + NewTable(old(State()), d, Pdx(v))
    {
      hide Inv, Lookup, Grow, Entry, Spent, NewTables;
      ghost var m := State();
      SelfGrow(m, d);
      mem := Kalloc();
      if mem == 0 {
        return 0, false;
      }
      Loaded(m, d, content);
      bytes := bytes[mem := content];
      ghost var n := State();
      assert n == Popped(m).(bytes := m.bytes[mem := content]);
      SameTables(m, n);
      OneTable(n, d, v);
      ok := Mappages(d, v, 1, mem, flags);
      SpentOne(n, State(), d, v);
      GrowTrans(m, n, State(), d, mem);
      if ok {
        TookPage(m, State(), d, v, mem);
      }
    }

    /** allocuvm's way out when memory is short: m is memory before the call, c before the last page. */
    method GiveUp(d: nat, oldsz: nat, newsz: nat, mem: nat, ghost m: Mem, ghost c: Mem, ghost a: nat)
      requires Valid() && d in dirs && oldsz < newsz < USERTOP && RoundUp(oldsz) <= a <= RoundUp(newsz)
      requires Inv(m) && Populated(m, c, d, RoundUp(oldsz), a) && Restored(c, State(), d, mem)
      requires Vacant(m, d, RoundUp(oldsz), RoundUp(newsz))
      requires mem != 0 ==> mem in c.owner && c.owner[mem] == Free && mem in owner && owner[mem] == Held
      modifies this
      ensures Valid() && Restored(m, State(), d, 0)
    {
      hide Inv, Lookup, Grow, Populated, Restored, Cleared, Vacant;
      ghost var n := State();
      ghost var lo, hi := RoundUp(oldsz), RoundUp(newsz);
      var _ := Deallocuvm(d, newsz, oldsz);
      GrowthUndone(m, c, n, State(), d, mem, lo, a, hi);
      if mem != 0 {
        HeldThroughout(m, c, n, State(), d, mem, lo, a, hi);
        GiveBack(m, State(), d, mem);
        Kfree(mem);
      }
    }

    /** allocuvm's loop. */
    method Populate(d: nat, oldsz: nat, newsz: nat) returns (ok: bool)
      requires Valid() && d in dirs && oldsz <= newsz < USERTOP
      requires Vacant(State(), d, RoundUp(oldsz), RoundUp(newsz))
      modifies this
      ensures Valid()
      ensures ok <==> Enough(old(State()), d, RoundUp(oldsz), RoundUp(newsz))
      ensures ok ==> Populated(old(State()), State(), d, RoundUp(oldsz), RoundUp(newsz))
      ensures !ok ==> Restored(old(State()), State(), d, 0)
    {
      hide Inv, Lookup, Entry, Grow, Populated, Restored, Added, Vacant, RoundUp, Filled, Spent, NewTables, NewTable,
        Pdx;
      ghost var m := State();
      Rounded(oldsz, newsz);
      var lo, hi := RoundUp(oldsz), RoundUp(newsz);
      PopulatedNone(m, d, lo);
      SpentNothing(m, d, lo);
      var a := lo;
      while a < hi
        invariant lo <= a <= hi && Valid() && d in dirs && Populated(m, State(), d, lo, a)
        invariant Spent(m, State(), d, lo, a, a - lo)
      {
        ghost var c := State();
        NotYet(m, c, d, lo, a, hi);
        var mem, added := AddPage(d, a, Filled(0), PTE_W + PTE_U);
        if !added {
          SpentShort(m, c, d, lo, a, hi, a - lo, 1);
          GiveUp(d, oldsz, newsz, mem, m, c, a);
          return false;
        }
        SpentMore(m, c, State(), d, lo, a, a - lo, 1);
        PopulatedMore(m, c, State(), d, lo, a, mem);
        a := a + 1;
      }
      SpentEnough(m, State(), d, lo, hi);
      ok := true;
    }

    /** allocuvm: zeroed user pages to grow from oldsz to newsz bytes, exactly when there are enough free
        pages for them and the tables they need. Otherwise every page taken is back on the free list,
        new tables apart. */
    method Allocuvm(d: nat, oldsz: nat, newsz: nat) returns (r: nat)
      requires Valid() && d in dirs
      requires oldsz <= newsz < USERTOP ==> Vacant(State(), d, RoundUp(oldsz), RoundUp(newsz))
      modifies this
      ensures Valid()
      ensures newsz >= USERTOP ==> r == 0 && State() == old(State())
      ensures newsz < oldsz && newsz < USERTOP ==> r == oldsz && State() == old(State())
      ensures oldsz <= newsz < USERTOP ==>
        if Enough(old(State()), d, RoundUp(oldsz), RoundUp(newsz))
        then r == newsz && Populated(old(State()), State(), d, RoundUp(oldsz), RoundUp(newsz))
        else r == 0 && Restored(old(State()), State(), d, 0)
      ensures oldsz <= newsz < USERTOP && r != 0 ==> forall v: nat :: oldsz <= v * PGSIZE < newsz ==>
        var pte := Lookup(State(), d, v);
        pte.Present? && pte.flags == PTE_W + PTE_U && pte.page in bytes && bytes[pte.page] == seq(4096, _ => 0)
    {
      hide Inv, Populated, Restored, Vacant, RoundUp, Enough;
      if newsz >= USERTOP {
        return 0;
      }
      if newsz < oldsz {
        return oldsz;
      }
      var ok := Populate(d, oldsz, newsz);
      r := if ok then newsz else 0;
      if ok {
        GrowthSeen(old(State()), State(), d, oldsz, newsz);
      }
    }

    /** The entry for user page v, which is mapped. */
    method Translate(d: nat, v: nat) returns (pte: Pte)
      requires Valid() && d in dirs && v < KERNBASE && Lookup(State(), d, v).Present?
      ensures pte == Lookup(State(), d, v)
    {
      hide Inv;
      TableOf(State(), d, Pdx(v));
      SelfGrow(State(), d);
      pte := tables[dirs[d][Pdx(v)]][Ptx(v)];
    }

    /** copyuvm: a new space whose first pages are copies of d's, with the same flags, or 0 with nothing
        changed. */
    method Copyuvm(d: nat, sz: nat, data: nat) returns (e: nat)
      requires Valid() && d in dirs && EXTMEM < data < PHYSTOP && sz <= USERTOP
      requires forall v: nat :: v < RoundUp(sz) ==> Lookup(State(), d, v).Present?
      modifies this
      ensures Valid()
      ensures e == 0 ==> Unchanged(old(State()), State())
      ensures e != 0 ==> Copied(old(State()), State(), d, e, RoundUp(sz), KernelMap(data))
      ensures e != 0 ==> forall v: nat :: v * PGSIZE < sz ==>
        var theirs, ours := Lookup(old(State()), d, v), Lookup(State(), e, v);
        && ours.Present? && theirs.Present? && ours.flags == theirs.flags
        && ours.page in bytes && theirs.page in old(bytes) && bytes[ours.page] == old(bytes)[theirs.page]
      ensures e != 0 ==> forall v: nat :: KERNBASE <= v < KERNBASE + PHYSTOP ==>
        Lookup(State(), e, v) == Present(v - KERNBASE, if KERNBASE + EXTMEM <= v < KERNBASE + data then 0 else PTE_W)
      ensures e != 0 ==> forall v: nat :: DEVSPACE <= v < VPAGES ==> Lookup(State(), e, v) == Present(v, PTE_W)
      ensures e != 0 ==> forall v: nat ::
        (v < KERNBASE && v * PGSIZE >= sz) || KERNBASE + PHYSTOP <= v < DEVSPACE || VPAGES <= v ==>
        Lookup(State(), e, v) == Absent
      ensures e != 0 ==> forall v: nat :: v >= KERNBASE && Lookup(State(), e, v).Present? ==>
        Lookup(State(), e, v).flags / PTE_U % 2 == 0
      ensures e != 0 <==> |old(free)| >= KERNELPAGES + RoundUp(sz) + TablesUpTo(0, RoundUp(sz))
    {
      hide Inv, Lookup, Entry, Grow, Released, Unchanged, KernelPte, Added, Copied, Restored, Spent, NewTables,
        TablesUpTo, Pdx;
      ghost var m := State();
      e := Setupkvm(data);
      if e == 0 {
        return;
      }
      ghost var ks := KernelMap(data);
      CopiedNone(m, State(), d, e, ks);
      ghost var m1 := State();
      SpentNothing(m1, e, 0);
      AllNew(m1, e, RoundUp(sz));
      var i := 0;
      while i < RoundUp(sz)
        invariant i <= RoundUp(sz) && Valid() && Copied(m, State(), d, e, i, ks)
        invariant Spent(m1, State(), e, 0, i, i)
      {
        ghost var c := State();
        ParentKept(m, c, d, e, i, data);
        var pte := Translate(d, i);
        var mem, ok := AddPage(e, i, bytes[pte.page], pte.flags);
        if !ok {
          SpentShort(m1, c, e, 0, i, RoundUp(sz), i, 1);
          if mem != 0 {
            GiveBack(c, State(), e, mem);
            Kfree(mem);
          }
          RestoredGrow(m, c, State(), d, e, i, ks);
          ghost var n := State();
          Freevm(e);
          Undone(m, n, State(), e);
          return 0;
        }
        CopiedMore(m, c, State(), d, e, i, ks, mem);
        SpentMore(m1, c, State(), e, 0, i, i, 1);
        i := i + 1;
      }
      SpentEnough(m1, State(), e, 0, i);
      forall v: nat {
        CopySeen(m, State(), d, e, sz, data, v);
      }
    }
  }

  lemma NoTablesYet(pgdir: seq<nat>)
    ensures TablesIn(pgdir, 0) == {}
  {
  }

  lemma SelfGrow(m: Mem, d: nat)
    requires Inv(m) && d in m.dirs
    ensures |m.dirs[d]| == NENTRIES && Grow(m, m, d, 0)
  {
  }

  lemma WalkAdds(m: Mem, d: nat, i: nat)
    requires Inv(m) && d in m.dirs && i < NENTRIES && Entry(m, d, i) == 0 && m.free != []
    ensures var t := m.free[0];
      && t != 0 && d in m.dirs && i < |m.dirs[d]|
      && var k := WithTable(Popped(m), d, i, t);
      && Inv(k) && Grow(m, k, d, 0) && |k.free| + 1 == |m.free|
      && (forall j: nat :: Entry(k, d, j) == if j == i then t else Entry(m, d, j))
      && forall e: nat, w: nat :: Lookup(k, e, w) == Lookup(m, e, w)
  {
    hide Lookup, FreeOk, TablesOk, UsersOk, Grow;
    var t := m.free[0];
    var n := Popped(m);
    PopKeepsInv(m);
    PopGrow(m, d);
    SameTables(m, n);
    TableLookup(n, d, i, t);
    TableKeepsInv(n, d, i, t);
    TableGrow(n, d, i, t);
    var k := WithTable(n, d, i, t);
    GrowTrans(m, n, k, d, t);
    GrowAll(m, k, d, t);
  }

  lemma SpentSame(m: Mem, c: Mem, n: Mem, d: nat, lo: nat, a: nat, pages: nat)
    requires Spent(m, c, d, lo, a, pages) && n.free == c.free && n.dirs == c.dirs
    ensures Spent(m, n, d, lo, a, pages)
  {
    assert forall i: nat :: Entry(n, d, i) == Entry(c, d, i);
  }

  lemma OneTable(m: Mem, d: nat, v: nat)
    ensures NewTables(m, d, Pdx(v), TablesUpTo(v, v + 1)) == NewTable(m, d, Pdx(v))
  {
    assert NewTables(m, d, Pdx(v), Pdx(v)) == 0;
  }

  lemma SpentOne(m: Mem, c: Mem, d: nat, v: nat)
    ensures Spent(m, c, d, v, v + 1, 0) ==> |c.free| + NewTable(m, d, Pdx(v)) == |m.free|
    ensures Spent(m, c, d, v, v + 1, 0) ==> forall i: nat :: Entry(c, d, i) != 0 <==> Entry(m, d, i) != 0 || i == Pdx(v)
  {
    OneTable(m, d, v);
  }

  /** A new space has no user tables. */
  lemma {:induction false} AllNew(m: Mem, d: nat, hi: nat)
    requires hi <= KERNBASE && forall j: nat :: j < Pdx(KERNBASE) ==> Entry(m, d, j) == 0
    ensures Pdx(0) == 0 && NewTables(m, d, 0, TablesUpTo(0, hi)) == TablesUpTo(0, hi)
  {
    NewBelow(m, d, TablesUpTo(0, hi));
  }

  lemma {:induction false} NewBelow(m: Mem, d: nat, h: nat)
    requires h <= Pdx(KERNBASE) && forall j: nat :: j < Pdx(KERNBASE) ==> Entry(m, d, j) == 0
    ensures NewTables(m, d, 0, h) == h
  {
    if h > 0 {
      NewBelow(m, d, h - 1);
    }
  }

  lemma SpentEnough(m: Mem, c: Mem, d: nat, lo: nat, hi: nat)
    requires lo <= hi && Spent(m, c, d, lo, hi, hi - lo)
    ensures Enough(m, d, lo, hi)
  {
  }

  lemma UserIndex(v: nat)
    requires v < VPAGES
    ensures Pdx(v) < NENTRIES
  {
  }

  lemma UserPage(m: Mem, d: nat, v: nat)
    requires Inv(m) && v < KERNBASE && Lookup(m, d, v).Present?
    ensures PageOf(m, d, v) != 0
  {
  }

  /** The page whose owner a mapping of v changes, if any. */
  function Taken(v: nat, p: nat): nat {
    if v < KERNBASE then p else 0
  }

  /** From m to n, the k pages from v on were mapped in d and no other translation of d changed. */
  ghost predicate Maps(m: Mem, n: Mem, d: nat, v: nat, k: nat, p: nat, flags: nat) {
    forall w: nat :: Lookup(n, d, w) == if v <= w < v + k then Present(p + (w - v), flags) else Lookup(m, d, w)
  }

  /** Mapping is under way: k of n pages are done, and a page to be taken is still held. */
  ghost predicate Mapping(m: Mem, c: Mem, d: nat, v: nat, n: nat, k: nat, p: nat, flags: nat) {
    && Inv(c) && d in c.dirs && Grow(m, c, d, Taken(v, p)) && Maps(m, c, d, v, k, p, flags)
    && (forall w: nat :: v <= w < v + n ==> Lookup(m, d, w).Absent?)
    && (v < KERNBASE ==> k == 0 && HeldAs(m, c, p))
  }

  ghost predicate HeldAs(m: Mem, c: Mem, p: nat) {
    p in c.owner && c.owner[p] == Held && p in c.bytes && p in m.bytes && c.bytes[p] == m.bytes[p]
  }

  lemma MappingMeans(m: Mem, c: Mem, d: nat, v: nat, n: nat, k: nat, p: nat, flags: nat)
    requires Mapping(m, c, d, v, n, k, p, flags)
    ensures Inv(c) && d in c.dirs && Grow(m, c, d, Taken(v, p)) && Maps(m, c, d, v, k, p, flags)
    ensures v < KERNBASE ==> k == 0 && HeldAs(m, c, p)
  {
  }

  lemma MappingStarts(m: Mem, d: nat, v: nat, n: nat, p: nat, flags: nat)
    requires Inv(m) && d in m.dirs
    requires forall w: nat :: v <= w < v + n ==> Lookup(m, d, w).Absent?
    requires v < KERNBASE ==> p in m.owner && m.owner[p] == Held
    ensures Mapping(m, m, d, v, n, 0, p, flags)
  {
  }

  /** Making a table for the next page changes no translation. */
  lemma MappingWalks(m: Mem, c: Mem, c': Mem, d: nat, v: nat, n: nat, k: nat, p: nat, flags: nat)
    requires Mapping(m, c, d, v, n, k, p, flags) && k < n
    requires Inv(c') && d in c'.dirs && Grow(c, c', d, 0)
    requires forall e: nat, w: nat :: Lookup(c', e, w) == Lookup(c, e, w)
    ensures Mapping(m, c', d, v, n, k, p, flags) && Lookup(c', d, v + k).Absent?
  {
    hide FreeOk, TablesOk, UsersOk, Lookup, Grow;
    GrowAllBut(c, c', d, Taken(v, p));
    GrowTrans(m, c, c', d, Taken(v, p));
    if v < KERNBASE {
      StillHeld(c, c', d, p);
    }
  }

  lemma StillHeld(c: Mem, c': Mem, d: nat, p: nat)
    requires Grow(c, c', d, 0) && p in c.owner && c.owner[p] == Held && p != 0
    ensures p in c'.owner && c'.owner[p] == Held && p in c.bytes && p in c'.bytes && c'.bytes[p] == c.bytes[p]
  {
  }

  /** Writing the next entry. */
  lemma MappingWrites(m: Mem, c: Mem, c': Mem, d: nat, v: nat, n: nat, k: nat, p: nat, flags: nat)
    requires Mapping(m, c, d, v, n, k, p, flags) && k < n && (v < KERNBASE ==> n == 1)
    requires Inv(c') && d in c'.dirs && Grow(c, c', d, Taken(v + k, p + k))
    requires forall e: nat, w: nat ::
      Lookup(c', e, w) == if e == d && w == v + k then Present(p + k, flags) else Lookup(c, e, w)
    ensures Maps(m, c', d, v, k + 1, p, flags) && Grow(m, c', d, Taken(v, p))
    ensures k + 1 < n ==> Mapping(m, c', d, v, n, k + 1, p, flags)
  {
    hide FreeOk, TablesOk, UsersOk, Lookup, Grow;
    GrowTrans(m, c, c', d, Taken(v, p));
  }

  // ---- Steps of the methods --------------------------------------------------------------------

  lemma Rounded(oldsz: nat, newsz: nat)
    requires oldsz <= newsz < USERTOP
    ensures RoundUp(oldsz) <= RoundUp(newsz) <= KERNBASE
    ensures oldsz == newsz ==> RoundUp(oldsz) == RoundUp(newsz)
  {
  }

  lemma SameUnchanged(m: Mem)
    requires Inv(m)
    ensures Unchanged(m, m)
  {
  }

  /** A page from the free list becomes an empty directory. */
  lemma NewDir(m: Mem, d: nat)
    requires Inv(m) && m.free != [] && d == m.free[0]
    ensures d in m.owner && m.owner[d] == Free
    ensures var k := WithDir(Popped(m), d); Inv(k) && Grow(m, k, d, 0) && HasMaps(k, d, []) && KernelSpent(m, k, d, [])
  {
    NoneNeeded(NENTRIES);
    hide FreeOk, TablesOk, UsersOk, Lookup, Grow, TablesFor;
    PopKeepsInv(m);
    PopGrow(m, d);
    var n := Popped(m);
    DirKeepsInv(n, d);
    DirLookup(n, d);
    DirGrow(n, d);
    GrowTrans(m, n, WithDir(n, d), d, d);
    GrowAll(m, WithDir(n, d), d, d);
  }

  lemma KernelMore(m: Mem, c: Mem, n: Mem, d: nat, ks: seq<Kmap>, i: nat)
    requires i < |ks| && KernelSpent(m, c, d, ks[..i]) && Spent(c, n, d, ks[i].virt, ks[i].virt + ks[i].n, 0)
    requires ks[i].n >= 1 && ks[i].virt + ks[i].n <= VPAGES
    ensures KernelSpent(m, n, d, ks[..i + 1])
  {
    hide Entry, NewTables, TablesFor;
    assert ks[..i + 1] == ks[..i] + [ks[i]] && ks[..i + 1][..i] == ks[..i];
    OneMapMore(c, d, ks[..i], ks[i], NENTRIES);
  }

  lemma KernelShort(m: Mem, c: Mem, d: nat, ks: seq<Kmap>, i: nat)
    requires i < |ks| && KernelSpent(m, c, d, ks[..i]) && ks[i].n >= 1 && ks[i].virt + ks[i].n <= VPAGES
    requires |c.free| < NewTables(c, d, Pdx(ks[i].virt), TablesUpTo(ks[i].virt, ks[i].virt + ks[i].n))
    ensures |m.free| < 1 + TablesFor(ks, NENTRIES)
  {
    hide Entry, NewTables, TablesFor;
    assert ks[..i + 1] == ks[..i] + [ks[i]];
    OneMapMore(c, d, ks[..i], ks[i], NENTRIES);
    MoreMaps(ks, i + 1, NENTRIES);
  }

  lemma GrowthSeen(m: Mem, c: Mem, d: nat, oldsz: nat, newsz: nat)
    requires Populated(m, c, d, RoundUp(oldsz), RoundUp(newsz))
    ensures forall v: nat :: oldsz <= v * PGSIZE < newsz ==>
      var pte := Lookup(c, d, v);
      pte.Present? && pte.flags == PTE_W + PTE_U && pte.page in c.bytes && c.bytes[pte.page] == seq(4096, _ => 0)
  {
    hide Lookup, Grow, RoundUp;
    forall v: nat | oldsz <= v * PGSIZE < newsz
      ensures Lookup(c, d, v).Present? && Lookup(c, d, v).flags == PTE_W + PTE_U && Lookup(c, d, v).page in c.bytes
      ensures c.bytes[Lookup(c, d, v).page] == seq(4096, _ => 0)
    {
      RoundUpInBytes(oldsz, v);
      RoundUpInBytes(newsz, v);
      assert Zeroed(c, d, v);
      assert Filled(0) == seq(4096, _ => 0);
    }
  }

  lemma ShrinkSeen(m: Mem, c: Mem, d: nat, oldsz: nat, newsz: nat)
    requires Cleared(m, c, d, RoundUp(newsz), RoundUp(oldsz))
    ensures forall e: nat, v: nat ::
      Lookup(c, e, v) == if e == d && newsz <= v * PGSIZE < oldsz then Absent else Lookup(m, e, v)
    ensures c.owner.Keys == m.owner.Keys
    ensures forall p :: p in m.owner ==>
      var was := m.owner[p];
      c.owner[p] == if was.User? && was.dir == d && newsz <= was.vpn * PGSIZE < oldsz then Free else was
  {
    hide Lookup, RoundUp;
    forall v: nat
      ensures RoundUp(newsz) <= v < RoundUp(oldsz) <==> newsz <= v * PGSIZE < oldsz
    {
      RoundUpInBytes(oldsz, v);
      RoundUpInBytes(newsz, v);
    }
    forall p | p in m.owner
      ensures Back(m, c, d, p, UserPages(m, d, RoundUp(newsz), RoundUp(oldsz)))
    {
    }
  }

  lemma KernelSeen(c: Mem, d: nat, data: nat)
    requires EXTMEM < data < PHYSTOP && HasMaps(c, d, KernelMap(data))
    ensures forall v: nat :: KERNBASE <= v < KERNBASE + PHYSTOP ==>
      Lookup(c, d, v) == Present(v - KERNBASE, if KERNBASE + EXTMEM <= v < KERNBASE + data then 0 else PTE_W)
    ensures forall v: nat :: DEVSPACE <= v < VPAGES ==> Lookup(c, d, v) == Present(v, PTE_W)
    ensures forall v: nat :: v < KERNBASE || KERNBASE + PHYSTOP <= v < DEVSPACE || VPAGES <= v ==>
      Lookup(c, d, v) == Absent
  {
    hide Lookup, KernelPte;
    forall v: nat {
      KernelPages(data, v);
    }
  }

  /** What a copied space looks like, in bytes of the parent's size. */
  lemma CopySeen(m: Mem, c: Mem, d: nat, e: nat, sz: nat, data: nat, v: nat)
    requires EXTMEM < data < PHYSTOP && sz <= USERTOP && Copied(m, c, d, e, RoundUp(sz), KernelMap(data))
    ensures v * PGSIZE < sz ==>
      && Lookup(m, d, v).Present? && Lookup(c, e, v).Present? && Lookup(c, e, v).flags == Lookup(m, d, v).flags
      && Lookup(m, d, v).page in m.bytes && Lookup(c, e, v).page in c.bytes
      && c.bytes[Lookup(c, e, v).page] == m.bytes[Lookup(m, d, v).page]
    ensures KERNBASE <= v < KERNBASE + PHYSTOP ==>
      Lookup(c, e, v) == Present(v - KERNBASE, if KERNBASE + EXTMEM <= v < KERNBASE + data then 0 else PTE_W)
    ensures DEVSPACE <= v < VPAGES ==> Lookup(c, e, v) == Present(v, PTE_W)
    ensures (v < KERNBASE && v * PGSIZE >= sz) || KERNBASE + PHYSTOP <= v < DEVSPACE || VPAGES <= v ==>
      Lookup(c, e, v) == Absent
  {
    hide Lookup, KernelPte, Grow;
    KernelPages(data, v);
    RoundUpInBytes(sz, v);
    assert if v < RoundUp(sz) then Twin(m, c, d, e, v) else Lookup(c, e, v) == KernelPte(KernelMap(data), v);
  }

  lemma KernelDone(m: Mem, c: Mem, d: nat, data: nat)
    requires EXTMEM < data < PHYSTOP && KernelSpent(m, c, d, KernelMap(data))
    ensures |c.free| + KERNELPAGES == |m.free| && forall j: nat :: j < Pdx(KERNBASE) ==> Entry(c, d, j) == 0
  {
    hide Entry, TablesFor, Covered;
    KernelTablesBelow(data, NENTRIES);
    forall j: nat | j < Pdx(KERNBASE)
      ensures Entry(c, d, j) == 0
    {
      KernelCovers(data, j);
    }
  }

  /** The kernel's mappings do not overlap. */
  lemma RoomForMap(m: Mem, d: nat, ks: seq<Kmap>, i: nat)
    requires i < |ks| && HasMaps(m, d, ks[..i])
    requires forall j, k :: 0 <= j < k < |ks| ==> ks[j].virt + ks[j].n <= ks[k].virt
    ensures forall w: nat :: ks[i].virt <= w < ks[i].virt + ks[i].n ==> Lookup(m, d, w).Absent?
  {
    hide Lookup;
    forall w: nat | ks[i].virt <= w
      ensures Lookup(m, d, w).Absent?
    {
      AboveMaps(ks[..i], w);
    }
  }

  lemma MapAdded(m: Mem, n: Mem, d: nat, ks: seq<Kmap>, i: nat)
    requires i < |ks| && HasMaps(m, d, ks[..i]) && Maps(m, n, d, ks[i].virt, ks[i].n, ks[i].start, ks[i].perm)
    ensures HasMaps(n, d, ks[..i + 1])
  {
    hide Lookup;
    assert ks[..i + 1][..i] == ks[..i];
  }

  lemma TookPage(m: Mem, n: Mem, d: nat, v: nat, q: nat)
    requires Grow(m, n, d, q) && q in m.owner && m.owner[q] == Free && q in n.owner && n.owner[q] == User(d, v)
    ensures Grow(m, n, d, 0)
  {
  }

  lemma PopulatedNone(m: Mem, d: nat, lo: nat)
    requires Inv(m) && d in m.dirs
    ensures Populated(m, m, d, lo, lo)
  {
  }

  lemma NotYet(m: Mem, c: Mem, d: nat, lo: nat, a: nat, hi: nat)
    requires Populated(m, c, d, lo, a) && Vacant(m, d, lo, hi) && lo <= a < hi
    ensures Lookup(c, d, a).Absent?
  {
  }

  lemma HeldThroughout(m: Mem, c: Mem, n: Mem, k: Mem, d: nat, q: nat, lo: nat, a: nat, hi: nat)
    requires Inv(m) && Populated(m, c, d, lo, a) && Cleared(n, k, d, lo, hi) && q != 0
    requires q in c.owner && c.owner[q] == Free && q in n.owner && n.owner[q] == Held
    ensures q in m.owner && m.owner[q] == Free && q in k.owner && k.owner[q] == Held
  {
  }

  lemma CopiedNone(m: Mem, c: Mem, d: nat, e: nat, ks: seq<Kmap>)
    requires Copied(m, c, 0, e, 0, ks)
    ensures Copied(m, c, d, e, 0, ks)
  {
  }

  /** While the child grows, the parent is as it was, and the child has no page i yet. */
  lemma ParentKept(m: Mem, c: Mem, d: nat, e: nat, i: nat, data: nat)
    requires Inv(m) && Inv(c) && d in m.dirs && i < KERNBASE && Lookup(m, d, i).Present? && EXTMEM < data < PHYSTOP
    requires Copied(m, c, d, e, i, KernelMap(data))
    ensures e in c.dirs && d in c.dirs && Lookup(c, d, i) == Lookup(m, d, i) && Lookup(c, e, i).Absent?
    ensures PageOf(m, d, i) in m.bytes && PageOf(m, d, i) in c.bytes &&
      c.bytes[PageOf(m, d, i)] == m.bytes[PageOf(m, d, i)]
  {
    hide FreeOk, TablesOk, UsersOk, Lookup;
    assert d != e && d in m.dirs - {e} && d in c.dirs - {e};
    GrowLookup(m, c, e, d, i);
    PageKept(m, c, e, d, i);
    BelowMaps(KernelMap(data), i);
  }

  lemma RestoredGrow(m: Mem, c: Mem, n: Mem, d: nat, e: nat, i: nat, ks: seq<Kmap>)
    requires Copied(m, c, d, e, i, ks) && Restored(c, n, e, 0)
    ensures Grow(m, n, e, 0) && e in m.owner && m.owner[e] == Free
  {
  }
}
