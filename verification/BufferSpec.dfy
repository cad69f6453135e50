/** The buffer cache as a state machine: any number of accesses, interleaved in any order at the
    points where the kernel's locks are taken and released, over a fixed pool of buffers. */
module BufferSpec {
  import opened Blocks
  import opened Wrappers

  datatype Key = Key(dev: nat, blockno: nat)

  /** The key of a buffer that was never used. */
  const NOKEY: Key := Key(0, 0)

  datatype Buf = Buf(key: Key, valid: bool, dirty: bool, refcnt: nat, holder: Option<nat>, data: Block)

  /** Where one access stands: it has a reference and waits for the lock, has the lock, or has let go
      of the lock but not yet of the reference. `touched` means changed since last saved. */
  datatype Access = Waits(buf: nat, key: Key) | Holds(buf: nat, key: Key, touched: bool) | Leaves(buf: nat, key: Key)

  datatype Cache = Cache(bufs: seq<Buf>, order: seq<nat>, disk: map<Key, Block>, accesses: map<nat, Access>)

  datatype Event =
    | Get(a: nat, key: Key)
    | Lock(a: nat)
    | Load(a: nat)
    | Modify(a: nat, data: Block)
    | Write(a: nat)
    | Pin(a: nat)
    | Unlock(a: nat)
    | Unref(a: nat)

  // ---- bget's choice --------------------------------------------------------------------

  /** The first buffer with the key, from the recently used end. */
  function Cached(bufs: seq<Buf>, order: seq<nat>, key: Key): (r: Option<nat>)
    requires forall j :: 0 <= j < |order| ==> order[j] < |bufs|
    ensures r.Some? ==> r.value in order && bufs[r.value].key == key
    ensures r.None? ==> forall i :: i in order ==> bufs[i].key != key
  {
    if order == [] then None
    else if bufs[order[0]].key == key then Some(order[0])
    else Cached(bufs, order[1..], key)
  }

  predicate Idle(b: Buf) {
    b.refcnt == 0 && !b.dirty
  }

  /** The first idle buffer, from the least recently used end. */
  function Victim(bufs: seq<Buf>, order: seq<nat>): (r: Option<nat>)
    requires forall j :: 0 <= j < |order| ==> order[j] < |bufs|
    ensures r.Some? ==> r.value in order && Idle(bufs[r.value])
    ensures r.None? ==> forall i :: i in order ==> !Idle(bufs[i])
  {
    if order == [] then None
    else
      var last := order[|order| - 1];
      if Idle(bufs[last]) then Some(last) else Victim(bufs, order[..|order| - 1])
  }

  /** The buffer bget settles on. */
  function Pick(bufs: seq<Buf>, order: seq<nat>, key: Key): (r: Option<nat>)
    requires forall j :: 0 <= j < |order| ==> order[j] < |bufs|
    ensures r.Some? ==> r.value < |bufs|
  {
    match Cached(bufs, order, key)
    case Some(i) => Some(i)
    case None => Victim(bufs, order)
  }

  /** What bget does to it: one more reference, or a new block that is not loaded yet. */
  function Referenced(b: Buf, key: Key): Buf {
    if b.key == key then b.(refcnt := b.refcnt + 1)
    else b.(key := key, valid := false, dirty := false, refcnt := 1)
  }

  function Position(order: seq<nat>, i: nat): (k: nat)
    requires i in order
    ensures k < |order| && order[k] == i
  {
    if order[0] == i then 0 else 1 + Position(order[1..], i)
  }

  /** i moved to the recently used end. */
  function ToFront(order: seq<nat>, i: nat): seq<nat>
    requires i in order
  {
    var k := Position(order, i);
    [i] + order[..k] + order[k + 1..]
  }

  /** Each buffer is in the list once. */
  ghost predicate Permutation(order: seq<nat>, nbuf: nat) {
    && (forall j :: 0 <= j < |order| ==> order[j] < nbuf)
    && (forall i: nat :: i < nbuf ==> i in order)
    && (forall j, k :: 0 <= j < k < |order| ==> order[j] != order[k])
  }

  // ---- Steps --------------------------------------------------------------------

  ghost predicate Shape(c: Cache) {
    && Permutation(c.order, |c.bufs|)
    && (forall a :: a in c.accesses ==> c.accesses[a].buf < |c.bufs|)
  }

  /** The kernel goes on: the caller follows the rules and there is no panic. */
  ghost predicate Enabled(c: Cache, e: Event)
    requires Shape(c)
  {
    match e
    case Get(a, key) =>
      a !in c.accesses && key != NOKEY && Pick(c.bufs, c.order, key).Some?
    case Lock(a) => a in c.accesses && c.accesses[a].Waits? && c.bufs[c.accesses[a].buf].holder.None?
    case Load(a) => Held(c, a) && !c.bufs[c.accesses[a].buf].valid && c.accesses[a].key in c.disk
    case Modify(a, _) => Held(c, a) && c.bufs[c.accesses[a].buf].valid
    case Write(a) => Held(c, a) && c.bufs[c.accesses[a].buf].valid
    case Pin(a) => Held(c, a) && c.bufs[c.accesses[a].buf].valid
    case Unlock(a) => Held(c, a) && !c.accesses[a].touched
    case Unref(a) => a in c.accesses && c.accesses[a].Leaves?
  }

  predicate Held(c: Cache, a: nat) {
    a in c.accesses && c.accesses[a].Holds?
  }

  function Set(c: Cache, i: nat, b: Buf, a: nat, access: Access): Cache
    requires i < |c.bufs|
  {
    c.(bufs := c.bufs[i := b], accesses := c.accesses[a := access])
  }

  /** bget's critical section. */
  ghost function Got(c: Cache, a: nat, key: Key): Cache
    requires Shape(c) && Enabled(c, Get(a, key))
  {
    var i := Pick(c.bufs, c.order, key).value;
    Set(c, i, Referenced(c.bufs[i], key), a, Waits(i, key))
  }

  /** brelse's critical section: the last reference moves the buffer to the front. */
  ghost function Unreferenced(c: Cache, a: nat): Cache
    requires Shape(c) && Enabled(c, Unref(a))
  {
    var i := c.accesses[a].buf;
    var n := c.bufs[i].refcnt - 1;
    c.(bufs := c.bufs[i := c.bufs[i].(refcnt := if n < 0 then 0 else n)],
       order := if n == 0 then ToFront(c.order, i) else c.order,
       accesses := c.accesses - {a})
  }

  ghost function Next(c: Cache, e: Event): Cache
    requires Shape(c) && Enabled(c, e)
  {
    match e
    case Get(a, key) => Got(c, a, key)
    case Lock(a) =>
      var at := c.accesses[a];
      Set(c, at.buf, c.bufs[at.buf].(holder := Some(a)), a, Holds(at.buf, at.key, false))
    case Load(a) =>
      var at := c.accesses[a];
      Set(c, at.buf, c.bufs[at.buf].(valid := true, data := c.disk[at.key]), a, at)
    case Modify(a, data) =>
      var at := c.accesses[a];
      Set(c, at.buf, c.bufs[at.buf].(data := data), a, at.(touched := true))
    case Write(a) =>
      var at := c.accesses[a];
      Set(c, at.buf, c.bufs[at.buf].(dirty := false), a,
        at.(touched := false)).(disk := c.disk[at.key := c.bufs[at.buf].data])
    case Pin(a) =>
      var at := c.accesses[a];
      Set(c, at.buf, c.bufs[at.buf].(dirty := true), a, at.(touched := false))
    case Unlock(a) =>
      var at := c.accesses[a];
      Set(c, at.buf, c.bufs[at.buf].(holder := None), a, Leaves(at.buf, at.key))
    case Unref(a) => Unreferenced(c, a)
  }

  /** The plain block store the cache stands for: only modifications change it. */
  function StoreNext(c: Cache, store: map<Key, Block>, e: Event): map<Key, Block> {
    match e
    case Modify(a, data) => if a in c.accesses then store[c.accesses[a].key := data] else store
    case _ => store
  }

  // ---- The invariant --------------------------------------------------------------------

  ghost function Refs(c: Cache, i: nat): set<nat> {
    set a | a in c.accesses && c.accesses[a].buf == i
  }

  /** Each buffer counts its accesses, and its lock is held by the one that says so. */
  ghost predicate Counted(c: Cache, i: nat)
    requires i < |c.bufs|
  {
    && c.bufs[i].refcnt == |Refs(c, i)|
    && (forall a :: c.bufs[i].holder == Some(a) <==> Held(c, a) && c.accesses[a].buf == i)
  }

  /** An access's buffer keeps its block for as long as the access lasts. */
  ghost predicate Settled(c: Cache, a: nat)
    requires a in c.accesses
  {
    && c.accesses[a].buf < |c.bufs| && c.accesses[a].key != NOKEY
    && c.bufs[c.accesses[a].buf].key == c.accesses[a].key
  }

  /** No two buffers hold the same block. */
  ghost predicate Unique(c: Cache) {
    forall i, j :: 0 <= i < j < |c.bufs| && c.bufs[i].key == c.bufs[j].key ==> c.bufs[i].key == NOKEY
  }

  /** Buffer i is being changed by its holder. */
  ghost predicate Touched(c: Cache, i: nat)
    requires i < |c.bufs|
  {
    exists a :: c.bufs[i].holder == Some(a) && Held(c, a) && c.accesses[a].touched
  }

  /** A valid buffer has the current contents of its block; unless it is dirty or being changed, so
      has the disk. */
  ghost predicate Current(c: Cache, store: map<Key, Block>, i: nat)
    requires i < |c.bufs|
  {
    var b := c.bufs[i];
    && (b.dirty ==> b.valid)
    && (b.valid ==> b.key in store && b.key in c.disk && b.data == store[b.key])
    && (b.valid && !b.dirty && !Touched(c, i) ==> b.data == c.disk[b.key])
  }

  /** The disk is behind only on blocks that are in the cache. */
  ghost predicate Behind(c: Cache, store: map<Key, Block>) {
    && store.Keys == c.disk.Keys
    && (forall k :: k in c.disk && store[k] != c.disk[k] ==>
      exists i :: 0 <= i < |c.bufs| && c.bufs[i].key == k && c.bufs[i].valid)
  }

  ghost predicate Inv(c: Cache, store: map<Key, Block>) {
    && Shape(c) && Unique(c) && Behind(c, store)
    && (forall i {:trigger Counted(c, i)} :: 0 <= i < |c.bufs| ==> Counted(c, i))
    && (forall i {:trigger Current(c, store, i)} :: 0 <= i < |c.bufs| ==> Current(c, store, i))
    && (forall a {:trigger Settled(c, a)} :: a in c.accesses ==> Settled(c, a))
  }

  // ---- Every step keeps it --------------------------------------------------------------------

  /** An access that already has buffer i changes it, but not its block or its count. */
  ghost predicate Updates(c: Cache, n: Cache, a: nat, i: nat) {
    && a in c.accesses && c.accesses[a].buf == i < |c.bufs| && |n.bufs| == |c.bufs| && n.order == c.order
    && n.bufs == c.bufs[i := n.bufs[i]] && n.bufs[i].key == c.bufs[i].key && n.bufs[i].refcnt == c.bufs[i].refcnt
    && a in n.accesses && n.accesses == c.accesses[a := n.accesses[a]]
    && n.accesses[a].buf == i && n.accesses[a].key == c.accesses[a].key
    && (c.bufs[i].holder == None || c.bufs[i].holder == Some(a))
    && n.bufs[i].holder == if n.accesses[a].Holds? then Some(a) else None
  }

  lemma UpdatesCounted(c: Cache, n: Cache, a: nat, i: nat, j: nat)
    requires Updates(c, n, a, i) && j < |c.bufs| && Counted(c, j) && Counted(c, i)
    ensures Counted(n, j)
  {
    assert Refs(n, j) == Refs(c, j);
  }

  ghost predicate SameBut(m: map<Key, Block>, n: map<Key, Block>, key: Key) {
    n.Keys == m.Keys && forall k :: k in m && k != key ==> n[k] == m[k]
  }

  /** The other buffers stay current if only the block of buffer i changes on disk and in the store. */
  lemma UpdatesCurrent(c: Cache, n: Cache, store: map<Key, Block>, store': map<Key, Block>, a: nat, i: nat, j: nat)
    requires Updates(c, n, a, i) && Unique(c) && j < |c.bufs| && j != i && Counted(c, j) && Current(c, store, j)
    requires Settled(c, a)
    requires SameBut(store, store', c.bufs[i].key) && SameBut(c.disk, n.disk, c.bufs[i].key)
    ensures Current(n, store', j)
  {
  }

  lemma UpdatesBehind(c: Cache, n: Cache, store: map<Key, Block>, store': map<Key, Block>, a: nat, i: nat)
    requires Updates(c, n, a, i) && Behind(c, store) && Current(n, store', i)
    requires SameBut(store, store', c.bufs[i].key) && SameBut(c.disk, n.disk, c.bufs[i].key)
    requires c.bufs[i].valid ==> n.bufs[i].valid
    requires !n.bufs[i].valid ==> store' == store && n.disk == c.disk
    ensures Behind(n, store')
  {
    forall k | k in n.disk && store'[k] != n.disk[k]
      ensures exists j :: 0 <= j < |n.bufs| && n.bufs[j].key == k && n.bufs[j].valid
    {
      if k == c.bufs[i].key && n.bufs[i].valid {
        assert n.bufs[i].key == k;
      } else {
        assert store[k] != c.disk[k];
        var j :| 0 <= j < |c.bufs| && c.bufs[j].key == k && c.bufs[j].valid;
        assert n.bufs[j].key == k && n.bufs[j].valid;
      }
    }
  }

  lemma UpdateKeepsInv(c: Cache, n: Cache, store: map<Key, Block>, store': map<Key, Block>, a: nat, i: nat)
    requires Inv(c, store) && Updates(c, n, a, i) && Current(n, store', i)
    requires SameBut(store, store', c.bufs[i].key) && SameBut(c.disk, n.disk, c.bufs[i].key)
    requires c.bufs[i].valid ==> n.bufs[i].valid
    requires !n.bufs[i].valid ==> store' == store && n.disk == c.disk
    ensures Inv(n, store')
  {
    hide Counted, Current, Settled, Behind;
    assert Settled(c, a) && Counted(c, i);
    UpdatesBehind(c, n, store, store', a, i);
    forall j: nat | j < |c.bufs|
      ensures Counted(n, j) && Current(n, store', j)
    {
      assert Counted(c, j) && Current(c, store, j);
      UpdatesCounted(c, n, a, i, j);
      if j != i {
        UpdatesCurrent(c, n, store, store', a, i, j);
      }
    }
    forall b | b in n.accesses
      ensures Settled(n, b)
    {
      assert Settled(c, b);
      UpdatesSettled(c, n, a, i, b);
    }
  }

  lemma UpdatesSettled(c: Cache, n: Cache, a: nat, i: nat, b: nat)
    requires Updates(c, n, a, i) && b in c.accesses && Settled(c, b)
    ensures Settled(n, b)
  {
  }

  /** Steps on a buffer whose reference is already there. */
  lemma AccessKeepsInv(c: Cache, store: map<Key, Block>, e: Event)
    requires Inv(c, store) && Enabled(c, e) && !e.Get? && !e.Unref?
    ensures Inv(Next(c, e), StoreNext(c, store, e))
  {
    var n, store', i := Next(c, e), StoreNext(c, store, e), c.accesses[e.a].buf;
    assert Settled(c, e.a) && Counted(c, i) && Current(c, store, i);
    assert Updates(c, n, e.a, i);
    AccessCurrent(c, store, e);
    UpdateKeepsInv(c, n, store, store', e.a, i);
  }

  lemma AccessCurrent(c: Cache, store: map<Key, Block>, e: Event)
    requires Inv(c, store) && Enabled(c, e) && !e.Get? && !e.Unref?
    ensures var n, store', i := Next(c, e), StoreNext(c, store, e), c.accesses[e.a].buf;
      && Current(n, store', i) && SameBut(store, store', c.bufs[i].key) && SameBut(c.disk, n.disk, c.bufs[i].key)
      && (!n.bufs[i].valid ==> store' == store && n.disk == c.disk)
  {
    hide Counted, Unique, Behind, Shape;
    var n, i := Next(c, e), c.accesses[e.a].buf;
    InvShape(c, store);
    assert Settled(c, e.a) && Current(c, store, i);
    HolderIs(c, store, e.a);
    match e {
      case Load(a) =>
        OnDiskIfNotLoaded(c, store, i);
      case Modify(a, data) =>
        assert n.bufs[i].holder == Some(a) && Held(n, a) && n.accesses[a].touched;
      case _ =>
    }
  }

  lemma InvShape(c: Cache, store: map<Key, Block>)
    requires Inv(c, store)
    ensures store.Keys == c.disk.Keys && (forall a :: a in c.accesses ==> c.accesses[a].buf < |c.bufs|)
  {
  }

  /** The lock of a held buffer is its holder's, and that of one waited for may be nobody's. */
  lemma HolderIs(c: Cache, store: map<Key, Block>, a: nat)
    requires Inv(c, store) && a in c.accesses
    ensures c.accesses[a].buf < |c.bufs| && (Held(c, a) <==> c.bufs[c.accesses[a].buf].holder == Some(a))
  {
    assert Counted(c, c.accesses[a].buf);
  }

  /** The disk is up to date on the block of a buffer that is not loaded. */
  lemma OnDiskIfNotLoaded(c: Cache, store: map<Key, Block>, i: nat)
    requires Unique(c) && Behind(c, store) && i < |c.bufs| && !c.bufs[i].valid && c.bufs[i].key != NOKEY &&
      c.bufs[i].key in c.disk
    ensures store[c.bufs[i].key] == c.disk[c.bufs[i].key]
  {
  }

  /** Moving a buffer to the front permutes the list. */
  lemma ToFrontPermutes(order: seq<nat>, nbuf: nat, i: nat)
    requires Permutation(order, nbuf) && i < nbuf
    ensures Permutation(ToFront(order, i), nbuf)
  {
    var k := Position(order, i);
    var n := ToFront(order, i);
    assert forall j :: 0 <= j < |n| ==> n[j] == order[if j == 0 then k else if j <= k then j - 1 else j];
    forall x: nat | x < nbuf
      ensures x in n
    {
      var j := Position(order, x);
      assert n[if j == k then 0 else if j < k then j + 1 else j] == x;
    }
  }

  /** A new reference to a cached buffer. */
  lemma HitKeepsInv(c: Cache, store: map<Key, Block>, a: nat, key: Key)
    requires Inv(c, store) && Enabled(c, Get(a, key)) && Cached(c.bufs, c.order, key).Some?
    ensures Inv(Got(c, a, key), store)
  {
    hide Cached, Victim;
    var i := Cached(c.bufs, c.order, key).value;
    var n := Got(c, a, key);
    forall j: nat | j < |c.bufs|
      ensures Counted(n, j) && Current(n, store, j)
    {
      assert Counted(c, j) && Current(c, store, j);
      ReferenceAdded(c, n, store, a, i, key, j);
    }
    forall b | b in n.accesses
      ensures Settled(n, b)
    {
      assert b != a ==> Settled(c, b);
    }
    forall k | k in n.disk && store[k] != n.disk[k]
      ensures exists j :: 0 <= j < |n.bufs| && n.bufs[j].key == k && n.bufs[j].valid
    {
      var j :| 0 <= j < |c.bufs| && c.bufs[j].key == k && c.bufs[j].valid;
      assert n.bufs[j].key == k && n.bufs[j].valid;
    }
  }

  lemma ReferenceAdded(c: Cache, n: Cache, store: map<Key, Block>, a: nat, i: nat, key: Key, j: nat)
    requires a !in c.accesses && i < |c.bufs| && n.disk == c.disk && n.accesses == c.accesses[a := Waits(i, key)]
    requires n.bufs == c.bufs[i := c.bufs[i].(refcnt := c.bufs[i].refcnt + 1)]
    requires j < |c.bufs| && Counted(c, j) && Current(c, store, j)
    ensures Counted(n, j) && Current(n, store, j)
  {
    hide Current, Refs;
    CurrentKept(c, n, store, j);
    RefsAdded(c, n, a, n.accesses[a], j);
  }

  lemma RefsAdded(c: Cache, n: Cache, a: nat, at: Access, j: nat)
    requires a !in c.accesses && n.accesses == c.accesses[a := at]
    ensures |Refs(n, j)| == |Refs(c, j)| + if at.buf == j then 1 else 0
  {
    if at.buf == j {
      assert Refs(n, j) == Refs(c, j) + {a};
    } else {
      assert Refs(n, j) == Refs(c, j);
    }
  }

  lemma RefsDropped(c: Cache, n: Cache, a: nat, j: nat)
    requires a in c.accesses && n.accesses == c.accesses - {a}
    ensures |Refs(n, j)| == |Refs(c, j)| - if c.accesses[a].buf == j then 1 else 0
  {
    assert c.accesses == n.accesses[a := c.accesses[a]];
    RefsAdded(n, c, a, c.accesses[a], j);
  }

  lemma CurrentKept(c: Cache, n: Cache, store: map<Key, Block>, j: nat)
    requires j < |c.bufs| && j < |n.bufs| && n.bufs[j] == c.bufs[j].(refcnt := n.bufs[j].refcnt) && n.disk == c.disk
    requires forall a :: c.bufs[j].holder == Some(a) ==>
      a in c.accesses && a in n.accesses && n.accesses[a] == c.accesses[a]
    requires Current(c, store, j)
    ensures Current(n, store, j)
  {
  }

  /** What the holder is doing depends on the holder only. */
  lemma SameTouched(c: Cache, n: Cache, j: nat)
    requires j < |c.bufs| && j < |n.bufs| && n.bufs[j].holder == c.bufs[j].holder
    requires forall a :: c.bufs[j].holder == Some(a) ==>
      a in c.accesses && a in n.accesses && n.accesses[a] == c.accesses[a]
    ensures Touched(n, j) <==> Touched(c, j)
  {
  }

  /** A buffer without references is nobody's. */
  lemma NoReferences(c: Cache, store: map<Key, Block>, i: nat)
    requires Inv(c, store) && i < |c.bufs| && c.bufs[i].refcnt == 0
    ensures Refs(c, i) == {} && c.bufs[i].holder == None && !Touched(c, i)
  {
    assert Counted(c, i);
    assert forall a :: Held(c, a) && c.accesses[a].buf == i ==> a in Refs(c, i);
  }

  /** A block that is not in the cache takes over an idle buffer. */
  lemma MissKeepsInv(c: Cache, store: map<Key, Block>, a: nat, key: Key)
    requires Inv(c, store) && Enabled(c, Get(a, key)) && Cached(c.bufs, c.order, key).None?
    ensures Inv(Got(c, a, key), store)
  {
    hide Cached, Victim;
    var i := Victim(c.bufs, c.order).value;
    var n := Got(c, a, key);
    NoReferences(c, store, i);
    forall j: nat | j < |c.bufs|
      ensures Counted(n, j) && Current(n, store, j)
    {
      assert Counted(c, j) && Current(c, store, j);
      Recycled(c, n, store, a, i, key, j);
    }
    forall b | b in n.accesses
      ensures Settled(n, b)
    {
      if b != a {
        assert Settled(c, b) && b !in Refs(c, i);
      }
    }
    assert Current(c, store, i);
    MissBehind(c, n, store, i);
  }

  lemma Recycled(c: Cache, n: Cache, store: map<Key, Block>, a: nat, i: nat, key: Key, j: nat)
    requires a !in c.accesses && i < |c.bufs| && n.disk == c.disk && n.accesses == c.accesses[a := Waits(i, key)]
    requires n.bufs == c.bufs[i := c.bufs[i].(key := key, valid := false, dirty := false, refcnt := 1)]
    requires Refs(c, i) == {} && c.bufs[i].holder == None
    requires j < |c.bufs| && Counted(c, j) && Current(c, store, j)
    ensures Counted(n, j) && Current(n, store, j)
  {
    assert Counted(n, j) by {
      assert Refs(n, j) == Refs(c, j) + if j == i then {a} else {};
    }
    SameTouched(c, n, j);
  }

  lemma MissBehind(c: Cache, n: Cache, store: map<Key, Block>, i: nat)
    requires Behind(c, store) && i < |c.bufs| == |n.bufs| && n.disk == c.disk
    requires Current(c, store, i) && !c.bufs[i].dirty && !Touched(c, i)
    requires forall j :: 0 <= j < |c.bufs| && j != i ==> n.bufs[j] == c.bufs[j]
    ensures Behind(n, store)
  {
  }

  lemma UnrefKeepsInv(c: Cache, store: map<Key, Block>, a: nat)
    requires Inv(c, store) && Enabled(c, Unref(a))
    ensures Inv(Unreferenced(c, a), store)
  {
    var n, i := Unreferenced(c, a), c.accesses[a].buf;
    assert Counted(c, i) && a in Refs(c, i);
    ToFrontPermutes(c.order, |c.bufs|, i);
    forall j: nat | j < |c.bufs|
      ensures Counted(n, j) && Current(n, store, j)
    {
      assert Counted(c, j) && Current(c, store, j);
      ReferenceDropped(c, n, store, a, j);
    }
    forall b | b in n.accesses
      ensures Settled(n, b)
    {
      assert Settled(c, b);
    }
    forall k | k in n.disk && store[k] != n.disk[k]
      ensures exists j :: 0 <= j < |n.bufs| && n.bufs[j].key == k && n.bufs[j].valid
    {
      var j :| 0 <= j < |c.bufs| && c.bufs[j].key == k && c.bufs[j].valid;
      assert n.bufs[j].key == k && n.bufs[j].valid;
    }
  }

  lemma ReferenceDropped(c: Cache, n: Cache, store: map<Key, Block>, a: nat, j: nat)
    requires Shape(c) && Enabled(c, Unref(a)) && n == Unreferenced(c, a)
    requires j < |c.bufs| && Counted(c, j) && Current(c, store, j)
    ensures Counted(n, j) && Current(n, store, j)
  {
    hide Current, Refs, ToFront;
    CurrentKept(c, n, store, j);
    RefsDropped(c, n, a, j);
  }

  lemma GetKeepsInv(c: Cache, store: map<Key, Block>, a: nat, key: Key)
    requires Inv(c, store) && Enabled(c, Get(a, key))
    ensures Inv(Got(c, a, key), store)
  {
    hide Cached, Victim;
    if Cached(c.bufs, c.order, key).Some? {
      HitKeepsInv(c, store, a, key);
    } else {
      MissKeepsInv(c, store, a, key);
    }
  }

  lemma StepKeepsInv(c: Cache, store: map<Key, Block>, e: Event)
    requires Inv(c, store) && Enabled(c, e)
    ensures Inv(Next(c, e), StoreNext(c, store, e))
  {
    hide Inv, Cached, Victim;
    match e
    case Get(a, key) => GetKeepsInv(c, store, a, key);
    case Unref(a) => UnrefKeepsInv(c, store, a);
    case _ => AccessKeepsInv(c, store, e);
  }

  // ---- Runs --------------------------------------------------------------------

  ghost predicate IsRun(c: Cache, events: seq<Event>)
    decreases |events|
  {
    events == [] || (Shape(c) && Enabled(c, events[0]) && IsRun(Next(c, events[0]), events[1..]))
  }

  ghost function Exec(c: Cache, events: seq<Event>): Cache
    requires IsRun(c, events)
    decreases |events|
  {
    if events == [] then c else Exec(Next(c, events[0]), events[1..])
  }

  ghost function StoreAfter(c: Cache, store: map<Key, Block>, events: seq<Event>): map<Key, Block>
    requires IsRun(c, events)
    decreases |events|
  {
    if events == [] then store
    else StoreAfter(Next(c, events[0]), StoreNext(c, store, events[0]), events[1..])
  }

  lemma {:induction false} RunKeepsInv(c: Cache, store: map<Key, Block>, events: seq<Event>)
    requires Inv(c, store) && IsRun(c, events)
    ensures Inv(Exec(c, events), StoreAfter(c, store, events))
    decreases |events|
  {
    if events != [] {
      StepKeepsInv(c, store, events[0]);
      RunKeepsInv(Next(c, events[0]), StoreNext(c, store, events[0]), events[1..]);
    }
  }

  /** The cache as binit leaves it. */
  ghost predicate Boot(c: Cache) {
    && Permutation(c.order, |c.bufs|) && c.accesses == map[]
    && (forall i :: 0 <= i < |c.bufs| ==> Unused(c.bufs[i]))
  }

  predicate Unused(b: Buf) {
    b.key == NOKEY && !b.valid && !b.dirty && b.refcnt == 0 && b.holder == None
  }

  lemma BootInv(c: Cache)
    requires Boot(c)
    ensures Inv(c, c.disk)
  {
  }

  /** Access a, which holds the buffer of a block, has its last contents, or has them after loading. */
  ghost predicate Reads(c: Cache, store: map<Key, Block>, a: nat, key: Key) {
    && Shape(c) && Held(c, a) && c.accesses[a].key == key && key in store
    && var i := c.accesses[a].buf;
    && i < |c.bufs| && c.bufs[i].key == key && c.bufs[i].holder == Some(a)
    && if c.bufs[i].valid then c.bufs[i].data == store[key]
       else
         && Enabled(c, Load(a))
         && var n := Next(c, Load(a));
         |n.bufs| == |c.bufs| && n.bufs[i].valid && n.bufs[i].data == store[key] && n.disk == c.disk && Held(n, a)
  }

  /** bread that finds the buffer's lock free: it holds the last contents anyone gave the block. */
  lemma BreadGives(c: Cache, store: map<Key, Block>, a: nat, key: Key)
    requires Inv(c, store) && Enabled(c, Get(a, key)) && key in c.disk
    requires c.bufs[Pick(c.bufs, c.order, key).value].holder.None?
    ensures var n := Next(c, Get(a, key));
      Shape(n) && Enabled(n, Lock(a)) && Reads(Next(n, Lock(a)), store, a, key)
  {
    var n := Next(c, Get(a, key));
    StepKeepsInv(c, store, Get(a, key));
    var m := Next(n, Lock(a));
    StepKeepsInv(n, store, Lock(a));
    var i := m.accesses[a].buf;
    assert Settled(m, a) && Current(m, store, i);
    if !m.bufs[i].valid {
      StepKeepsInv(m, store, Load(a));
      assert Current(Next(m, Load(a)), store, i);
    }
  }

  /** A change and bwrite of a loaded buffer put the contents on the disk; brelse gives up the lock and the
      reference, and if it was the last one the buffer is the first on the list. */
  lemma BwriteReaches(c: Cache, store: map<Key, Block>, a: nat, data: Block)
    requires Inv(c, store) && Held(c, a) && c.bufs[c.accesses[a].buf].valid
    ensures Enabled(c, Modify(a, data))
    ensures var i, n := c.accesses[a].buf, Next(c, Modify(a, data));
      && Shape(n) && Enabled(n, Write(a))
      && var m := Next(n, Write(a));
      && Shape(m) && m.disk == c.disk[c.accesses[a].key := data] && |m.bufs| == |c.bufs|
      && m.bufs[i].data == data && m.bufs[i].valid && !m.bufs[i].dirty && Enabled(m, Unlock(a))
      && var u := Next(m, Unlock(a));
      && Shape(u) && !Held(u, a) && |u.bufs| == |c.bufs| && u.bufs[i].holder.None? && Enabled(u, Unref(a))
      && var v := Next(u, Unref(a));
      && a !in v.accesses && |v.bufs| == |c.bufs| && v.bufs[i].refcnt + 1 == c.bufs[i].refcnt && v.disk == m.disk
      && (c.bufs[i].refcnt == 1 ==> v.order != [] && v.order[0] == i)
      && (c.bufs[i].refcnt > 1 ==> v.order == c.order)
  {
    assert Settled(c, a) && Counted(c, c.accesses[a].buf);
    assert a in Refs(c, c.accesses[a].buf);
  }

  /** In every run, whoever holds a loaded buffer sees the last contents anyone gave its block,
      holds it alone, and no other buffer has that block. */
  lemma CacheIsAStore(c: Cache, events: seq<Event>, a: nat)
    requires Boot(c) && IsRun(c, events) && Held(Exec(c, events), a)
    ensures var n, store := Exec(c, events), StoreAfter(c, c.disk, events);
      var i, key := n.accesses[a].buf, n.accesses[a].key;
      && i < |n.bufs| && n.bufs[i].key == key
      && (n.bufs[i].valid ==> key in store && n.bufs[i].data == store[key])
      && (forall b :: Held(n, b) && n.accesses[b].buf == i ==> b == a)
      && (forall j :: 0 <= j < |n.bufs| && n.bufs[j].key == key ==> j == i)
  {
    BootInv(c);
    RunKeepsInv(c, c.disk, events);
    var n, store := Exec(c, events), StoreAfter(c, c.disk, events);
    var i := n.accesses[a].buf;
    assert Settled(n, a) && Counted(n, i) && Current(n, store, i);
  }

  /** In every run the list holds each buffer once, no two buffers have the same block, and a loaded buffer
      that is neither dirty nor being changed is equal to its block on disk. */
  lemma CacheIsConsistent(c: Cache, events: seq<Event>, i: nat)
    requires Boot(c) && IsRun(c, events) && i < |Exec(c, events).bufs|
    ensures var n := Exec(c, events);
      && Permutation(n.order, |n.bufs|)
      && (forall j :: 0 <= j < |n.bufs| && j != i && n.bufs[j].key == n.bufs[i].key ==> n.bufs[i].key == NOKEY)
      && (n.bufs[i].valid && !n.bufs[i].dirty && !Touched(n, i) ==>
           n.bufs[i].key in n.disk && n.bufs[i].data == n.disk[n.bufs[i].key])
  {
    BootInv(c);
    RunKeepsInv(c, c.disk, events);
    assert Current(Exec(c, events), StoreAfter(c, c.disk, events), i);
  }

  /** In every run, the disk has the last contents of every block, those of dirty buffers and of
      buffers being changed apart. */
  lemma DiskIsCurrent(c: Cache, events: seq<Event>, key: Key)
    requires Boot(c) && IsRun(c, events) && key in Exec(c, events).disk
    requires var n := Exec(c, events);
      forall i :: 0 <= i < |n.bufs| && n.bufs[i].key == key ==> !n.bufs[i].dirty && !Touched(n, i)
    ensures key in StoreAfter(c, c.disk, events) && Exec(c, events).disk[key] == StoreAfter(c, c.disk, events)[key]
  {
    BootInv(c);
    RunKeepsInv(c, c.disk, events);
    var n, store := Exec(c, events), StoreAfter(c, c.disk, events);
    forall i | 0 <= i < |n.bufs| && n.bufs[i].key == key && n.bufs[i].valid
      ensures store[key] == n.disk[key]
    {
      assert Current(n, store, i);
    }
  }

  /** A buffer that is dirty or referenced keeps its block. */
  lemma NeverRecycled(c: Cache, e: Event, i: nat)
    requires Shape(c) && Enabled(c, e) && i < |c.bufs| && !Idle(c.bufs[i])
    ensures Next(c, e).bufs[i].key == c.bufs[i].key
  {
  }

  /** bget finds no buffer exactly when the block is not cached and every buffer is in use. */
  lemma PanicExactly(c: Cache, a: nat, key: Key)
    requires Shape(c) && a !in c.accesses && key != NOKEY
    ensures !Enabled(c, Get(a, key)) <==> forall i :: 0 <= i < |c.bufs| ==> c.bufs[i].key != key && !Idle(c.bufs[i])
  {
  }
}
