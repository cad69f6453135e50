/** The user-level allocator: a circular list of free blocks in address order, threaded through
    the block headers. Addresses and sizes are in units of one header (8 bytes). */
module Umalloc {
  import opened Blocks
  import opened Wrappers

  /** The address of the static header `base`; it lies below the heap. 0 is the null pointer. */
  const BASE: nat := 1
  const UNIT: nat := 8

  // ---- The list --------------------------------------------------------------------

  /** y comes next after x in the circular address order of F. */
  ghost predicate Follows(F: set<nat>, x: nat, y: nat) {
    || (x < y && forall z :: z in F ==> z <= x || y <= z)
    || (y == BASE && forall z :: z in F ==> z <= x)
  }

  ghost predicate Linked(F: set<nat>, ptr: map<nat, nat>, x: nat) {
    x in ptr && ptr[x] in F && Follows(F, x, ptr[x])
  }

  /** The headers in F form one circular list, in address order, starting over at the base. */
  ghost predicate Ring(F: set<nat>, ptr: map<nat, nat>) {
    && BASE in F
    && (forall x :: x in F ==> BASE <= x)
    && (forall x {:trigger Linked(F, ptr, x)} :: x in F ==> Linked(F, ptr, x))
  }

  lemma RingInsert(F: set<nat>, ptr: map<nat, nat>, p: nat, b: nat)
    requires Ring(F, ptr) && p in F && Linked(F, ptr, p)
    requires b !in F && p < b && (b < ptr[p] || ptr[p] == BASE)
    ensures Ring(F + {b}, ptr[b := ptr[p]][p := b])
  {
    var F', ptr' := F + {b}, ptr[b := ptr[p]][p := b];
    forall x | x in F'
      ensures Linked(F', ptr', x)
    {
      if x != b {
        assert Linked(F, ptr, x);
      }
    }
  }

  lemma RingRemove(F: set<nat>, ptr: map<nat, nat>, p: nat, x: nat)
    requires Ring(F, ptr) && p in F && x in F && Linked(F, ptr, p) && ptr[p] == x && x != BASE
    ensures p < x && x in ptr && Ring(F - {x}, ptr[p := ptr[x]])
  {
    assert Linked(F, ptr, x);
    var F', ptr' := F - {x}, ptr[p := ptr[x]];
    forall z | z in F'
      ensures Linked(F', ptr', z)
    {
      assert Linked(F, ptr, z);
    }
  }

  // ---- The blocks --------------------------------------------------------------------

  predicate IsBlock(F: set<nat>, live: map<nat, nat>, x: nat) {
    x in F || x in live
  }

  /** Unit u lies in the block with header x. */
  predicate Inside(size: map<nat, nat>, x: nat, u: nat) {
    x in size && x <= u < x + size[x]
  }

  /** Every block, free or live, has a header with its size, and `home` maps each unit of memory
      obtained so far to the header of the one block it belongs to. */
  ghost predicate Partition(F: set<nat>, live: map<nat, nat>, size: map<nat, nat>, home: map<nat, nat>) {
    && BASE in F && BASE in size && size[BASE] == 0 && F !! live.Keys
    && (forall x :: x in F ==> x in size && BASE <= x && (x != BASE ==> size[x] >= 1))
    && (forall x :: x in live ==> x in size && BASE < x && size[x] == live[x] >= 1)
    && (forall x, u {:trigger Inside(size, x, u)} :: IsBlock(F, live, x) && Inside(size, x, u) ==>
      u in home && home[u] == x)
    && (forall u :: u in home ==> IsBlock(F, live, home[u]) && Inside(size, home[u], u))
  }

  /** Block x, not the base, ends where y begins. */
  predicate Touching(size: map<nat, nat>, x: nat, y: nat) {
    x != BASE && x in size && x + size[x] == y
  }

  /** No free block ends where another begins. */
  ghost predicate Apart(F: set<nat>, size: map<nat, nat>) {
    forall x, y {:trigger Touching(size, x, y)} :: x in F && y in F ==> !Touching(size, x, y)
  }

  /** Two blocks do not overlap. */
  lemma BlocksDisjoint(F: set<nat>, live: map<nat, nat>, size: map<nat, nat>, home: map<nat, nat>, x: nat, y: nat)
    requires Partition(F, live, size, home)
    requires IsBlock(F, live, x) && IsBlock(F, live, y) && x < y
    ensures x + size[x] <= y
  {
    if y < x + size[x] {
      assert Inside(size, x, y) && Inside(size, y, y);
      assert false;
    }
  }

  /** The units of y handed to x. */
  ghost function Rehome(home: map<nat, nat>, x: nat, y: nat): map<nat, nat> {
    map u | u in home :: if home[u] == y then x else home[u]
  }

  lemma Merge(F: set<nat>, live: map<nat, nat>, size: map<nat, nat>, home: map<nat, nat>, x: nat, y: nat)
    requires Partition(F, live, size, home)
    requires x in F && y in F && Touching(size, x, y)
    ensures Partition(F - {y}, live, size[x := size[x] + size[y]], Rehome(home, x, y))
    ensures Rehome(home, x, y).Keys == home.Keys
  {
    var size' := size[x := size[x] + size[y]];
    assert y != BASE && size[y] >= 1;
    forall z, u | IsBlock(F - {y}, live, z) && Inside(size', z, u)
      ensures u in home && Rehome(home, x, y)[u] == z
    {
      if z == x && y <= u {
        assert Inside(size, y, u);
      } else {
        assert Inside(size, z, u);
      }
    }
    forall u | u in home
      ensures IsBlock(F - {y}, live, Rehome(home, x, y)[u]) && Inside(size', Rehome(home, x, y)[u], u)
    {
      assert Inside(size, home[u], u);
    }
  }

  /** A live block becomes free. */
  lemma Release(F: set<nat>, live: map<nat, nat>, size: map<nat, nat>, home: map<nat, nat>, b: nat)
    requires Partition(F, live, size, home) && b in live
    ensures Partition(F + {b}, live - {b}, size, home)
  {
  }

  /** A free block becomes live, as a whole. */
  lemma Claim(F: set<nat>, live: map<nat, nat>, size: map<nat, nat>, home: map<nat, nat>, b: nat)
    requires Partition(F, live, size, home) && b in F && b != BASE
    ensures Partition(F - {b}, live[b := size[b]], size, home)
  {
  }

  /** The units from q on, out of block p. */
  ghost function Tail(home: map<nat, nat>, p: nat, q: nat): map<nat, nat> {
    map u | u in home :: if home[u] == p && q <= u then q else home[u]
  }

  /** The last n units of a larger free block become a live block. */
  lemma Split(F: set<nat>, live: map<nat, nat>, size: map<nat, nat>, home: map<nat, nat>, p: nat, n: nat)
    requires Partition(F, live, size, home) && p in F && p != BASE && 1 <= n < size[p]
    ensures var q := p + size[p] - n;
      && q !in F && q !in live
      && Partition(F, live[q := n], size[p := size[p] - n][q := n], Tail(home, p, q))
      && Tail(home, p, q).Keys == home.Keys
  {
    var q := p + size[p] - n;
    if q in F || q in live {
      BlocksDisjoint(F, live, size, home, p, q);
      assert false;
    }
    var size', home' := size[p := size[p] - n][q := n], Tail(home, p, q);
    forall z, u | IsBlock(F, live[q := n], z) && Inside(size', z, u)
      ensures u in home' && home'[u] == z
    {
      if z == q {
        assert Inside(size, p, u);
      } else {
        assert Inside(size, z, u);
      }
    }
    forall u | u in home
      ensures IsBlock(F, live[q := n], home'[u]) && Inside(size', home'[u], u)
    {
      assert Inside(size, home[u], u);
    }
  }

  lemma BelowGrant(F: set<nat>, live: map<nat, nat>, size: map<nat, nat>, home: map<nat, nat>, h: nat)
    requires Partition(F, live, size, home) && BASE < h
    requires forall u :: u in home ==> u < h
    ensures forall x: nat :: IsBlock(F, live, x) ==> x < h
  {
    forall x: nat | IsBlock(F, live, x)
      ensures x < h
    {
      if x != BASE {
        assert Inside(size, x, x);
      }
    }
  }

  /** sbrk's new memory, above everything obtained before, as a live block. */
  lemma Grant(F: set<nat>, live: map<nat, nat>, size: map<nat, nat>, home: map<nat, nat>, h: nat, n: nat)
    requires Partition(F, live, size, home) && BASE < h && 1 <= n
    requires forall u :: u in home ==> u < h
    ensures h !in F && h !in live
    ensures Partition(F, live[h := n], size[h := n], home + Fresh(h, n))
    ensures (home + Fresh(h, n)).Keys == home.Keys + Units(h, n)
  {
    BelowGrant(F, live, size, home, h);
    assert !IsBlock(F, live, h);
    var size', home' := size[h := n], home + Fresh(h, n);
    forall z: nat, u: nat | IsBlock(F, live[h := n], z) && Inside(size', z, u)
      ensures u in home' && home'[u] == z
    {
      if z != h {
        assert Inside(size, z, u);
      }
    }
    forall u | u in home'
      ensures IsBlock(F, live[h := n], home'[u]) && Inside(size', home'[u], u)
    {
      if u < h {
        assert Inside(size, home[u], u);
      }
    }
  }

  function Units(h: nat, n: nat): (s: set<nat>)
    ensures forall u :: u in s <==> h <= u < h + n
  {
    if n == 0 then {} else Units(h, n - 1) + {h + n - 1}
  }

  ghost function Fresh(h: nat, n: nat): map<nat, nat> {
    map u | u in Units(h, n) :: h
  }

  // ---- Freeing --------------------------------------------------------------------

  /** No free block ends where another begins, except perhaps a at b and b at c. */
  ghost predicate AllBut(F: set<nat>, size: map<nat, nat>, a: nat, b: nat, c: nat) {
    forall x, y {:trigger Touching(size, x, y)} :: x in F && y in F && Touching(size, x, y) ==>
      (x == a && y == b) || (x == b && y == c)
  }

  /** A block put between p and its successor can touch only those two. */
  lemma Neighbours(F: set<nat>, ptr: map<nat, nat>, live: map<nat, nat>, size: map<nat, nat>, home: map<nat, nat>,
      p: nat, b: nat)
    requires Ring(F, ptr) && Partition(F, live, size, home) && Apart(F, size)
    requires p in F && Linked(F, ptr, p) && b in live && p < b && (b < ptr[p] || ptr[p] == BASE)
    ensures AllBut(F + {b}, size, p, b, ptr[p])
  {
    forall x, y | x in F + {b} && y in F + {b} && Touching(size, x, y)
      ensures (x == p && y == b) || (x == b && y == ptr[p])
    {
      assert IsBlock(F, live, x) && IsBlock(F, live, y);
      if x == b {
        if y != ptr[p] {
          BlocksDisjoint(F, live, size, home, b, ptr[p]);
        }
      } else if y == b {
        if x < p {
          BlocksDisjoint(F, live, size, home, x, p);
        }
      }
    }
  }

  /** Merging two free blocks removes one touching pair and makes none. */
  lemma MergeApart(F: set<nat>, live: map<nat, nat>, size: map<nat, nat>, home: map<nat, nat>, a: nat, x: nat, y: nat)
    requires Partition(F, live, size, home) && x in F && y in F && Touching(size, x, y)
    requires AllBut(F, size, a, x, y)
    requires a < x
    ensures AllBut(F - {y}, size[x := size[x] + size[y]], a, x, y)
  {
    var size' := size[x := size[x] + size[y]];
    forall u, v | u in F - {y} && v in F - {y} && Touching(size', u, v)
      ensures u == a && v == x
    {
      if u == x {
        assert Touching(size, y, v);
      } else {
        assert Touching(size, u, v);
      }
    }
  }

  /** The list and the blocks of a heap, before merging. */
  ghost predicate Sound(F: set<nat>, ptr: map<nat, nat>, live: map<nat, nat>, size: map<nat, nat>,
      home: map<nat, nat>) {
    Ring(F, ptr) && Partition(F, live, size, home)
  }

  /** Linking a live block in after p. */
  lemma Link(F: set<nat>, ptr: map<nat, nat>, live: map<nat, nat>, size: map<nat, nat>, home: map<nat, nat>, p: nat,
      b: nat)
    requires Sound(F, ptr, live, size, home) && Apart(F, size)
    requires p in F && Linked(F, ptr, p) && b in live && p < b && (b < ptr[p] || ptr[p] == BASE)
    ensures Sound(F + {b}, ptr[b := ptr[p]][p := b], live - {b}, size, home)
    ensures AllBut(F + {b}, size, p, b, ptr[p])
  {
    RingInsert(F, ptr, p, b);
    Release(F, live, size, home, b);
    Neighbours(F, ptr, live, size, home, p, b);
  }

  /** Merging the free block x with its successor y, which it touches. */
  lemma Absorb(F: set<nat>, ptr: map<nat, nat>, live: map<nat, nat>, size: map<nat, nat>, home: map<nat, nat>, a: nat,
      x: nat, y: nat)
    requires Sound(F, ptr, live, size, home) && AllBut(F, size, a, x, y) && a < x
    requires x in F && y in F && x in ptr && y in ptr && ptr[x] == y && Touching(size, x, y)
    ensures Sound(F - {y}, ptr[x := ptr[y]], live, size[x := size[x] + size[y]], Rehome(home, x, y))
    ensures AllBut(F - {y}, size[x := size[x] + size[y]], a, x, y)
    ensures Rehome(home, x, y).Keys == home.Keys
  {
    assert Linked(F, ptr, x);
    RingRemove(F, ptr, x, y);
    Merge(F, live, size, home, x, y);
    MergeApart(F, live, size, home, a, x, y);
  }

  lemma Header(F: set<nat>, ptr: map<nat, nat>, live: map<nat, nat>, size: map<nat, nat>, home: map<nat, nat>, x: nat)
    requires Sound(F, ptr, live, size, home) && IsBlock(F, live, x)
    ensures x in size && BASE <= x && (x == BASE ==> x in F && size[x] == 0)
    ensures x in F ==> x !in live && x in ptr && ptr[x] in F && Linked(F, ptr, x)
    ensures x != BASE ==> size[x] >= 1 && x in home && home[x] == x
    ensures x in live ==> live[x] == size[x]
    ensures 0 !in F
  {
    assert x in F ==> Linked(F, ptr, x);
    assert x != BASE ==> Inside(size, x, x);
  }

  lemma LowerPairLeft(F: set<nat>, size: map<nat, nat>, p: nat, b: nat, n: nat)
    requires AllBut(F, size, p, b, n) && (n !in F || !Touching(size, b, n))
    ensures AllBut(F, size, 0, p, b)
  {
  }

  lemma NoPairLeft(F: set<nat>, size: map<nat, nat>, p: nat, b: nat)
    requires AllBut(F, size, 0, p, b) && 0 !in F && (b !in F || !Touching(size, p, b))
    ensures Apart(F, size)
  {
  }

  ghost function Above(F: set<nat>, p: nat): set<nat> {
    set x | x in F && x > p
  }

  lemma AboveShrinks(F: set<nat>, p: nat, q: nat)
    requires q in F && p < q
    ensures Above(F, q) < Above(F, p)
  {
    assert q in Above(F, p) && q !in Above(F, q);
  }

  /** Adjacent free units are in the same block: fully merged. */
  lemma Coalesced(F: set<nat>, ptr: map<nat, nat>, live: map<nat, nat>, size: map<nat, nat>, home: map<nat, nat>,
      u: nat)
    requires Sound(F, ptr, live, size, home) && Apart(F, size)
    requires u in home && u + 1 in home && home[u] in F && home[u + 1] in F
    ensures home[u] == home[u + 1]
  {
    assert Inside(size, home[u], u + 1) ==> home[u] == home[u + 1];
    assert Inside(size, home[u + 1], u) ==> home[u] == home[u + 1];
    assert !Touching(size, home[u], home[u + 1]);
  }

  class Heap {
    var ptr: map<nat, nat>
    var size: map<nat, nat>
    var freep: nat
    ghost var free: set<nat>
    ghost var live: map<nat, nat>
    ghost var home: map<nat, nat>

    ghost predicate Valid()
      reads this
    {
      if freep == 0 then
        free == {} && live == map[] && home == map[]
      else
        Sound(free, ptr, live, size, home) && Apart(free, size) && freep in free
    }

    constructor ()
      ensures Valid() && live == map[] && home == map[]
    {
      ptr, size, freep := map[], map[], 0;
      free, live, home := {}, map[], map[];
    }

    /** Finds the free block after which b belongs. */
    method FindPlace(b: nat) returns (p: nat)
      requires Valid() && b in live
      ensures p in free && Linked(free, ptr, p) && p < b && (b < ptr[p] || ptr[p] == BASE)
      ensures forall x :: x in free && x < b ==> x <= p
    {
      p := freep;
      assert b !in free && BASE < b;
      assert Linked(free, ptr, p);
      while !(b > p && b < ptr[p])
        invariant p in free && Linked(free, ptr, p)
        decreases p > b, Above(free, p)
      {
        if p >= ptr[p] && (b > p || b < ptr[p]) {
          break;
        }
        if ptr[p] > p {
          AboveShrinks(free, p, ptr[p]);
        }
        p := ptr[p];
        assert Linked(free, ptr, p);
      }
    }

    /** Block b is free and about to be linked in after p; they may still be touching. */
    ghost predicate Pending(p: nat, b: nat)
      reads this
    {
      && Sound(free, ptr[p := b], live, size, home) && AllBut(free, size, 0, p, b)
      && p in free && b in free && BASE <= p < b
      && b in home && home[b] == b
    }

    /** The first half of free: b points past p, taking in p's old successor if it touches it. */
    method JoinUpper(p: nat, b: nat)
      requires Valid() && b in live
      requires p in free && Linked(free, ptr, p) && p < b && (b < ptr[p] || ptr[p] == BASE)
      modifies `ptr, `size, `free, `live, `home
      ensures Pending(p, b) && live == old(live) - {b} && home.Keys == old(home.Keys)
      ensures b in size && size[b] >= old(live[b])
    {
      hide Sound, AllBut, Apart, Linked;
      Header(free, ptr, live, size, home, b);
      Header(free, ptr, live, size, home, p);
      var n := ptr[p];
      Header(free, ptr, live, size, home, n);
      Link(free, ptr, live, size, home, p, b);
      ghost var ptr1 := ptr[b := n][p := b];
      free, live := free + {b}, live - {b};
      if b + size[b] == n {
        Absorb(free, ptr1, live, size, home, p, b, n);
        free, home := free - {n}, Rehome(home, b, n);
        size := size[b := size[b] + size[n]];
        ptr := ptr[b := ptr[n]];
        assert ptr[p := b] == ptr1[b := ptr1[n]];
      } else {
        ptr := ptr[b := n];
      }
      LowerPairLeft(free, size, p, b, n);
    }

    /** The second half: p takes b in if it touches it, or else points to it. */
    method JoinLower(p: nat, b: nat)
      requires Pending(p, b) && p in size && b in size && b in ptr
      modifies `ptr, `size, `free, `home
      ensures Sound(free, ptr, live, size, home) && Apart(free, size) && p in free
      ensures home.Keys == old(home.Keys)
      ensures b in home && home[b] in free && home[b] in size && size[home[b]] >= old(size[b])
    {
      hide Sound, AllBut, Apart;
      Header(free, ptr[p := b], live, size, home, p);
      Header(free, ptr[p := b], live, size, home, b);
      if p + size[p] == b {
        Absorb(free, ptr[p := b], live, size, home, 0, p, b);
        free, home := free - {b}, Rehome(home, p, b);
        size := size[p := size[p] + size[b]];
        assert ptr[p := b][p := ptr[b]] == ptr[p := ptr[b]];
        ptr := ptr[p := ptr[b]];
      } else {
        ptr := ptr[p := b];
      }
      NoPairLeft(free, size, p, b);
    }

    /** free(ap): the block goes back to the free blocks, merged with the free neighbours it
        touches, and no other live block changes. */
    method Free(ap: nat)
      requires Valid() && ap >= 1 && ap - 1 in live
      modifies this
      ensures Valid() && freep != 0
      ensures freep in old(free) && freep < ap - 1 && forall x :: x in old(free) && x < ap - 1 ==> x <= freep
      ensures live == old(live) - {ap - 1} && home.Keys == old(home.Keys)
      ensures ap - 1 in home && home[ap - 1] in free && home[ap - 1] in size && size[home[ap - 1]] >= old(live[ap - 1])
    {
      hide Sound, AllBut, Apart;
      var b := ap - 1;
      var p := FindPlace(b);
      JoinUpper(p, b);
      Header(free, ptr[p := b], live, size, home, p);
      Header(free, ptr[p := b], live, size, home, b);
      JoinLower(p, b);
      freep := p;
    }

    /** morecore(nu): asks for at least 4096 units; `grant` is sbrk's answer, None for -1. The
        memory becomes a free block. */
    method Morecore(nu: nat, grant: Option<nat>) returns (p: nat)
      requires Valid() && freep != 0 && nu >= 1
      requires grant.Some? ==> Higher(grant.value)
      modifies this
      ensures Valid() && freep != 0 && live == old(live)
      ensures grant.None? ==> p == 0 && unchanged(this)
      ensures grant.Some? ==>
        && p == freep && home.Keys == old(home.Keys) + Units(grant.value, Obtained(nu))
        && Fits(nu)
      ensures grant.Some? ==> forall u: nat ::
        u in home <==> u in old(home) || grant.value <= u < grant.value + (if nu < 4096 then 4096 else nu)
    {
      hide Sound, Apart;
      match grant
      case None =>
        p := 0;
      case Some(h) =>
        var n := Obtained(nu);
        Granted(free, ptr, live, size, home, h, n);
        ghost var before := live;
        size := size[h := n];
        live, home := live[h := n], home + Fresh(h, n);
        Free(h + 1);
        assert live == before;
        p := freep;
    }

    /** New memory at h lies above the base and everything obtained before. */
    ghost predicate Higher(h: nat)
      reads this
    {
      BASE < h && forall u :: u in home ==> u < h
    }

    /** One trip around the list from freep: the first block of at least n units, with its
        predecessor, or none because every free block is smaller. */
    method Scan(n: nat) returns (found: bool, prevp: nat, p: nat)
      requires Valid() && freep != 0
      ensures p in free && p in size && prevp in free && prevp in ptr && ptr[prevp] == p
      ensures found ==> size[p] >= n
      ensures forall x :: x in free && Between(freep, x, p) ==> x in size && size[x] < n
      ensures found <==> Fits(n)
    {
      prevp := freep;
      assert Linked(free, ptr, prevp);
      p := ptr[prevp];
      while size[p] < n
        invariant p in free && prevp in free && Linked(free, ptr, prevp) && ptr[prevp] == p
        invariant forall x :: x in free && Between(freep, x, p) ==> size[x] < n
        decreases p > freep, Above(free, p)
      {
        if p == freep {
          return false, prevp, p;
        }
        assert Linked(free, ptr, p);
        if ptr[p] > p {
          AboveShrinks(free, p, ptr[p]);
        }
        prevp, p := p, ptr[p];
      }
      found := true;
    }

    /** Some free block has at least n units. */
    ghost predicate Fits(n: nat)
      reads this
    {
      exists x :: x in free && x in size && size[x] >= n
    }

    /** Takes n units from the free block p, all of it or its tail. */
    method Take(prevp: nat, p: nat, n: nat) returns (b: nat)
      requires Valid() && freep != 0 && n >= 1
      requires p in free && p in size && prevp in free && prevp in ptr && ptr[prevp] == p && size[p] >= n
      modifies this
      ensures Valid() && b !in old(live) && live == old(live)[b := n] && home.Keys == old(home.Keys)
      ensures b == p + old(size)[p] - n && freep == prevp
      ensures free == if b == p then old(free) - {p} else old(free)
    {
      hide Sound, Apart;
      Header(free, ptr, live, size, home, p);
      if size[p] == n {
        TakeWhole(free, ptr, live, size, home, prevp, p);
        free, live := free - {p}, live[p := n];
        ptr := ptr[prevp := ptr[p]];
        b := p;
      } else {
        TakeTail(free, ptr, live, size, home, p, n);
        b := p + size[p] - n;
        live, home := live[b := n], Tail(home, p, b);
        size := size[p := size[p] - n];
        size := size[b := n];
      }
      freep := prevp;
    }

    /** The first call: the list holds the empty base block only. */
    method Start(n: nat)
      requires Valid() && freep == 0 && n >= 1
      modifies this
      ensures Valid() && freep != 0 && live == old(live) && home == old(home)
      ensures !old(Fits(n)) && !Fits(n)
    {
      ptr, size, freep := map[BASE := BASE], map[BASE := 0], BASE;
      free := {BASE};
      FirstHeap(ptr, size);
    }

    /** malloc(nbytes): `grant` is what sbrk would answer. A block of its own that no live block
        shares a unit with, from a free block if one is large enough and else from sbrk; 0 exactly
        when neither has room. It holds nbytes unless the rounding up wraps around. */
    method Malloc(nbytes: nat, grant: Option<nat>) returns (r: nat)
      requires Valid() && nbytes < WORD
      requires UnitsFor(nbytes) * UNIT < WORD / 2
      requires grant.Some? ==> Higher(grant.value)
      modifies this
      ensures Valid()
      ensures r == 0 <==> !old(Fits(UnitsFor(nbytes))) && grant.None?
      ensures r == 0 ==> live == old(live)
      ensures r != 0 ==> r - 1 !in old(live) && live == old(live)[r - 1 := UnitsFor(nbytes)]
      ensures home.Keys == old(home.Keys) +
        if r == 0 || old(Fits(UnitsFor(nbytes))) then {} else Units(grant.value, Obtained(UnitsFor(nbytes)))
      ensures old(Fits(UnitsFor(nbytes))) ==> exists p: nat ::
        FirstFit(old(free), old(size), old(freep), UnitsFor(nbytes), p) && r - 1 == p + old(size)[p] - UnitsFor(nbytes)
      ensures r != 0 ==> ((live[r - 1] - 1) * UNIT >= nbytes <==> nbytes <= WORD - UNIT)
      ensures r != 0 ==> (live[r - 1] - 1) * UNIT < nbytes + UNIT
    {
      hide Sound, Apart, UnitsFor, Heap.Fits, Units;
      PayloadFits(nbytes);
      var n := UnitsFor(nbytes);
      if freep == 0 {
        Start(n);
      }
      var found, prevp, p := Scan(n);
      assert found ==> FirstFit(free, size, freep, n, p);
      if !found {
        var q := Morecore(n, grant);
        if q == 0 {
          return 0;
        }
        found, prevp, p := Scan(n);
      }
      var b := Take(prevp, p, n);
      r := b + 1;
    }
  }

  /** What malloc asks of the free list, in unsigned 32-bit arithmetic: the header and the payload
      rounded up. */
  function UnitsFor(nbytes: nat): nat {
    (nbytes + UNIT - 1) % WORD / UNIT + 1
  }

  /** The payload is large enough unless adding the rounding wraps around. */
  lemma PayloadFits(nbytes: nat)
    requires nbytes < WORD
    ensures UnitsFor(nbytes) >= 1
    ensures (UnitsFor(nbytes) - 1) * UNIT >= nbytes <==> nbytes <= WORD - UNIT
    ensures if nbytes <= WORD - UNIT then (UnitsFor(nbytes) - 1) * UNIT < nbytes + UNIT else UnitsFor(nbytes) == 1
  {
  }

  lemma FirstHeap(ptr: map<nat, nat>, size: map<nat, nat>)
    requires ptr == map[BASE := BASE] && size == map[BASE := 0]
    ensures Sound({BASE}, ptr, map[], size, map[]) && Apart({BASE}, size)
  {
  }

  lemma TakeWhole(F: set<nat>, ptr: map<nat, nat>, live: map<nat, nat>, size: map<nat, nat>, home: map<nat, nat>,
      prevp: nat, p: nat)
    requires Sound(F, ptr, live, size, home) && Apart(F, size)
    requires prevp in F && prevp in ptr && ptr[prevp] == p && p in F && p != BASE
    ensures p in ptr && p in size && prevp != p
    ensures Sound(F - {p}, ptr[prevp := ptr[p]], live[p := size[p]], size, home) && Apart(F - {p}, size)
  {
    assert Linked(F, ptr, prevp);
    RingRemove(F, ptr, prevp, p);
    Claim(F, live, size, home, p);
  }

  lemma TakeTail(F: set<nat>, ptr: map<nat, nat>, live: map<nat, nat>, size: map<nat, nat>, home: map<nat, nat>,
      p: nat, n: nat)
    requires Sound(F, ptr, live, size, home) && Apart(F, size)
    requires p in F && p in size && p != BASE && 1 <= n < size[p]
    ensures var q := p + size[p] - n;
      && q !in F && q !in live
      && Sound(F, ptr, live[q := n], size[p := size[p] - n][q := n], Tail(home, p, q))
      && Apart(F, size[p := size[p] - n][q := n])
      && Tail(home, p, q).Keys == home.Keys
  {
    Split(F, live, size, home, p, n);
    var q := p + size[p] - n;
    forall x, y | x in F && y in F
      ensures !Touching(size[p := size[p] - n][q := n], x, y)
    {
      assert !Touching(size, x, y);
    }
  }

  /** The size of the block morecore obtains. */
  function Obtained(nu: nat): nat {
    if nu < 4096 then 4096 else nu
  }

  /** Free block p is large enough, and none before it on a trip around the list from s is. */
  ghost predicate FirstFit(free: set<nat>, size: map<nat, nat>, s: nat, n: nat, p: nat) {
    && p in free && p in size && size[p] >= n
    && forall x :: x in free && Between(s, x, p) ==> x in size && size[x] < n
  }

  /** x comes before p on a trip around the addresses that starts just above s. */
  predicate Between(s: nat, x: nat, p: nat) {
    if p > s then s < x < p else x > s || x < p
  }

  lemma Granted(F: set<nat>, ptr: map<nat, nat>, live: map<nat, nat>, size: map<nat, nat>, home: map<nat, nat>,
      h: nat, n: nat)
    requires Sound(F, ptr, live, size, home) && Apart(F, size) && BASE < h && 1 <= n
    requires forall u :: u in home ==> u < h
    ensures h !in F && h !in live
    ensures Sound(F, ptr, live[h := n], size[h := n], home + Fresh(h, n)) && Apart(F, size[h := n])
    ensures (home + Fresh(h, n)).Keys == home.Keys + Units(h, n)
  {
    Grant(F, live, size, home, h, n);
    forall x, y | x in F && y in F
      ensures !Touching(size[h := n], x, y)
    {
      assert !Touching(size, x, y);
    }
  }
}
