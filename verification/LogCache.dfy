/** The buffer cache as the log's device: in every run of the cache the blocks of a disk, and what anyone
    reads of them, are those of the device that the log is modelled over. */
module LogCache {
  import opened Blocks
  import opened Wrappers
  import opened BufferSpec
  import opened BlockDevice
  import LogSpec

  /** Buffer i has contents that the disk may not have. */
  ghost predicate Ahead(c: Cache, i: nat)
    requires i < |c.bufs|
  {
    c.bufs[i].valid && (c.bufs[i].dirty || Touched(c, i))
  }

  /** The blocks of disk `dev` on d's disk, and those that are ahead of it pinned. */
  ghost predicate Stands(c: Cache, dev: nat, d: Device) {
    && (forall b: nat :: Key(dev, b) in c.disk <==> b < |d.disk|)
    && (forall b: nat :: b < |d.disk| ==> c.disk[Key(dev, b)] == d.disk[b])
    && (forall i: nat {:trigger Ahead(c, i)} :: i < |c.bufs| && Ahead(c, i) && c.bufs[i].key.dev == dev ==>
         PinnedAs(d, c.bufs[i].key.blockno, c.bufs[i].data))
    && (forall b: nat :: b in d.pinned ==> b < |d.disk| && AheadOn(c, Key(dev, b)))
    && (forall a :: Held(c, a) && c.accesses[a].touched ==>
         c.accesses[a].buf < |c.bufs| && c.bufs[c.accesses[a].buf].valid)
  }

  predicate PinnedAs(d: Device, b: nat, data: Block) {
    b in d.pinned && d.pinned[b] == data
  }

  ghost predicate AheadOn(c: Cache, key: Key) {
    exists i: nat :: i < |c.bufs| && Ahead(c, i) && c.bufs[i].key == key
  }

  /** What an event does to a block of disk `dev`. */
  function ActOf(c: Cache, dev: nat, e: Event): Option<Act> {
    match e
    case Modify(a, data) => if On(c, dev, a) then Some(Change(c.accesses[a].key.blockno, data)) else None
    case Write(a) => if On(c, dev, a) then Some(Flush(c.accesses[a].key.blockno)) else None
    case Pin(a) => if On(c, dev, a) then Some(Keep(c.accesses[a].key.blockno)) else None
    case _ => None
  }

  predicate On(c: Cache, dev: nat, a: nat) {
    a in c.accesses && c.accesses[a].key.dev == dev
  }

  /** What anyone reads is what the device shows. */
  lemma StandsView(c: Cache, store: map<Key, Block>, dev: nat, d: Device, b: nat)
    requires Inv(c, store) && Stands(c, dev, d) && b < |d.disk|
    ensures Key(dev, b) in store && store[Key(dev, b)] == View(d, b)
  {
    var key := Key(dev, b);
    if b in d.pinned {
      var i: nat :| i < |c.bufs| && Ahead(c, i) && c.bufs[i].key == key;
      assert Current(c, store, i);
    } else {
      forall i: nat | i < |c.bufs| && c.bufs[i].key == key && c.bufs[i].valid
        ensures store[key] == c.disk[key]
      {
        assert Ahead(c, i) ==> PinnedAs(d, b, c.bufs[i].data);
        assert Current(c, store, i);
      }
    }
  }

  // ---- Steps that leave the device alone ------------------------------------------------------

  /** No buffer gets ahead or ceases to be. */
  lemma SameAhead(c: Cache, n: Cache, dev: nat, d: Device)
    requires Stands(c, dev, d) && n.disk == c.disk && |n.bufs| == |c.bufs|
    requires forall i: nat :: i < |c.bufs| ==> (Ahead(n, i) <==> Ahead(c, i))
    requires forall i: nat :: i < |c.bufs| && Ahead(c, i) ==>
      n.bufs[i].key == c.bufs[i].key && n.bufs[i].data == c.bufs[i].data
    requires forall a :: Held(n, a) && n.accesses[a].touched ==>
      Held(c, a) && n.accesses[a] == c.accesses[a] &&
        (c.bufs[c.accesses[a].buf].valid ==> n.bufs[c.accesses[a].buf].valid)
    ensures Stands(n, dev, d)
  {
    forall b: nat | b in d.pinned
      ensures AheadOn(n, Key(dev, b))
    {
      var i: nat :| i < |c.bufs| && Ahead(c, i) && c.bufs[i].key == Key(dev, b);
      assert Ahead(n, i);
    }
  }

  /** The lock is taken, the contents are loaded, or the lock is let go. */
  lemma LockingStands(c: Cache, store: map<Key, Block>, e: Event, dev: nat, d: Device)
    requires Inv(c, store) && Enabled(c, e) && Stands(c, dev, d) && (e.Lock? || e.Load? || e.Unlock?)
    ensures Stands(Next(c, e), dev, d)
  {
    var n, i := Next(c, e), c.accesses[e.a].buf;
    forall j: nat | j < |c.bufs|
      ensures Ahead(n, j) <==> Ahead(c, j)
    {
      assert Counted(c, j) && Counted(c, i) && Current(c, store, i);
      OthersTouched(c, n, e.a, i, j);
    }
    SameAhead(c, n, dev, d);
  }

  /** A step of access a on buffer i changes no other buffer's standing. */
  lemma OthersTouched(c: Cache, n: Cache, a: nat, i: nat, j: nat)
    requires i < |c.bufs| == |n.bufs| && j < |c.bufs| && a in c.accesses && c.accesses[a].buf == i
    requires Counted(c, j) && (j != i ==> n.bufs[j] == c.bufs[j])
    requires forall x :: x != a ==> (Held(n, x) <==> Held(c, x)) && (Held(c, x) ==> n.accesses[x] == c.accesses[x])
    ensures j != i ==> (Touched(n, j) <==> Touched(c, j))
  {
  }

  /** A reference comes or goes. */
  lemma ReferenceStands(c: Cache, store: map<Key, Block>, e: Event, dev: nat, d: Device)
    requires Inv(c, store) && Enabled(c, e) && Stands(c, dev, d) && (e.Get? || e.Unref?)
    ensures Stands(Next(c, e), dev, d)
  {
    hide Cached, Victim;
    var n := Next(c, e);
    var i := if e.Get? then Pick(c.bufs, c.order, e.key).value else c.accesses[e.a].buf;
    if e.Get? && c.bufs[i].key != e.key {
      NoReferences(c, store, i);
    }
    forall j: nat | j < |c.bufs|
      ensures Ahead(n, j) <==> Ahead(c, j)
    {
      assert Counted(c, j);
      assert Touched(n, j) <==> Touched(c, j);
    }
    forall a | Held(n, a) && n.accesses[a].touched
      ensures Held(c, a) && n.accesses[a] == c.accesses[a]
      ensures c.bufs[c.accesses[a].buf].valid ==> n.bufs[c.accesses[a].buf].valid
    {
      assert a in Refs(c, c.accesses[a].buf);
    }
    SameAhead(c, n, dev, d);
  }

  // ---- Steps that change it ------------------------------------------------------------------------

  /** Only access a's buffer i changes, and a keeps it. */
  ghost predicate Works(c: Cache, n: Cache, a: nat, i: nat, touched: bool) {
    && Held(c, a) && c.accesses[a].buf == i < |c.bufs| == |n.bufs| && c.bufs[i].valid
    && n.accesses == c.accesses[a := c.accesses[a].(touched := touched)]
    && n.bufs[i] == c.bufs[i].(dirty := n.bufs[i].dirty, data := n.bufs[i].data)
    && (forall j :: 0 <= j < |c.bufs| && j != i ==> n.bufs[j] == c.bufs[j])
  }

  lemma WorksOthers(c: Cache, store: map<Key, Block>, n: Cache, a: nat, i: nat, touched: bool, j: nat)
    requires Inv(c, store) && Works(c, n, a, i, touched) && j < |c.bufs|
    ensures if j == i then Touched(n, j) <==> touched else Ahead(n, j) <==> Ahead(c, j)
    ensures j != i ==> c.bufs[j].key != c.bufs[i].key
    ensures c.bufs[i].key == c.accesses[a].key != NOKEY
  {
    assert Counted(c, j) && Counted(c, i) && Settled(c, a);
    OthersTouched(c, n, a, i, j);
    assert j == i ==> n.bufs[i].holder == Some(a);
  }

  /** The device d' after such a step agrees with d but on the block of buffer i. */
  ghost predicate Follows(n: Cache, dev: nat, d: Device, d': Device, i: nat)
    requires i < |n.bufs|
  {
    var key := n.bufs[i].key;
    && |d'.disk| == |d.disk|
    && (forall b: nat :: Key(dev, b) in n.disk <==> b < |d'.disk|)
    && (forall b: nat :: b < |d'.disk| ==> n.disk[Key(dev, b)] == d'.disk[b])
    && (forall b: nat :: Key(dev, b) != key ==>
         (b in d'.pinned <==> b in d.pinned) && (b in d.pinned ==> d'.pinned[b] == d.pinned[b]))
    && (key.dev == dev ==>
         && (key.blockno in d'.pinned <==> Ahead(n, i))
         && (key.blockno in d'.pinned ==> key.blockno < |d.disk| && d'.pinned[key.blockno] == n.bufs[i].data))
  }

  lemma WorkedAhead(c: Cache, store: map<Key, Block>, n: Cache, a: nat, i: nat, touched: bool, dev: nat, d: Device,
      d': Device, j: nat)
    requires Inv(c, store) && Stands(c, dev, d) && Works(c, n, a, i, touched) && Follows(n, dev, d, d', i)
    requires j < |c.bufs| && c.bufs[j].key.dev == dev
    ensures Ahead(n, j) ==> PinnedAs(d', n.bufs[j].key.blockno, n.bufs[j].data)
  {
    WorksOthers(c, store, n, a, i, touched, j);
    hide Inv, Touched;
    assert Ahead(c, j) ==> PinnedAs(d, c.bufs[j].key.blockno, c.bufs[j].data);
  }

  lemma WorkedPinned(c: Cache, store: map<Key, Block>, n: Cache, a: nat, i: nat, touched: bool, dev: nat, d: Device,
      d': Device, b: nat)
    requires Inv(c, store) && Stands(c, dev, d) && Works(c, n, a, i, touched) && Follows(n, dev, d, d', i)
    requires b in d'.pinned
    ensures b < |d.disk| && AheadOn(n, Key(dev, b))
  {
    if Key(dev, b) == n.bufs[i].key {
      assert Ahead(n, i);
    } else {
      var j: nat :| j < |c.bufs| && Ahead(c, j) && c.bufs[j].key == Key(dev, b);
      WorksOthers(c, store, n, a, i, touched, j);
      assert Ahead(n, j);
    }
  }

  lemma WorkedStands(c: Cache, store: map<Key, Block>, n: Cache, a: nat, i: nat, touched: bool, dev: nat, d: Device,
      d': Device)
    requires Inv(c, store) && Stands(c, dev, d) && Works(c, n, a, i, touched) && Follows(n, dev, d, d', i)
    ensures Stands(n, dev, d')
  {
    hide Inv, Ahead, Touched, AheadOn, PinnedAs;
    forall j: nat | j < |n.bufs| && n.bufs[j].key.dev == dev
      ensures Ahead(n, j) ==> PinnedAs(d', n.bufs[j].key.blockno, n.bufs[j].data)
    {
      WorkedAhead(c, store, n, a, i, touched, dev, d, d', j);
    }
    forall b: nat | b in d'.pinned
      ensures b < |d.disk| && AheadOn(n, Key(dev, b))
    {
      WorkedPinned(c, store, n, a, i, touched, dev, d, d', b);
    }
  }

  /** What the device shows of the block of a buffer that is held is in the buffer. */
  lemma HeldView(c: Cache, store: map<Key, Block>, a: nat, dev: nat, d: Device)
    requires Inv(c, store) && Stands(c, dev, d) && Held(c, a) && c.bufs[c.accesses[a].buf].valid && On(c, dev, a)
    ensures var i, b := c.accesses[a].buf, c.accesses[a].key.blockno;
      && i < |c.bufs| && c.bufs[i].key == Key(dev, b) && b < |d.disk| && View(d, b) == c.bufs[i].data
  {
    var i := c.accesses[a].buf;
    assert Settled(c, a) && Current(c, store, i);
    StandsView(c, store, dev, d, c.accesses[a].key.blockno);
  }

  /** The block of a buffer that is held, changed in the cache and on the device. */
  lemma BlockFollows(c: Cache, store: map<Key, Block>, n: Cache, a: nat, touched: bool, dev: nat, d: Device, d': Device)
    requires Inv(c, store) && Stands(c, dev, d) && On(c, dev, a) && Works(c, n, a, c.accesses[a].buf, touched)
    requires var b, i := c.accesses[a].key.blockno, c.accesses[a].buf;
      && Key(dev, b) in n.disk && b < |d.disk| && n.disk == c.disk[Key(dev, b) := n.disk[Key(dev, b)]]
      && d'.disk == d.disk[b := n.disk[Key(dev, b)]]
      && d'.pinned == if n.bufs[i].dirty || touched then d.pinned[b := n.bufs[i].data] else d.pinned - {b}
    ensures Follows(n, dev, d, d', c.accesses[a].buf)
  {
    var i := c.accesses[a].buf;
    WorksOthers(c, store, n, a, i, touched, i);
    HeldView(c, store, a, dev, d);
    assert n.bufs[i].key == c.accesses[a].key && n.bufs[i].valid && (Touched(n, i) <==> touched);
    hide Inv, Touched, Works, AheadOn, PinnedAs, View;
  }

  /** A block of another disk. */
  lemma ElsewhereFollows(c: Cache, store: map<Key, Block>, n: Cache, a: nat, touched: bool, dev: nat, d: Device)
    requires Inv(c, store) && Stands(c, dev, d) && a in c.accesses && c.accesses[a].key.dev != dev
    requires Works(c, n, a, c.accesses[a].buf, touched) && n.disk.Keys == c.disk.Keys
    requires forall b: nat :: Key(dev, b) in c.disk ==> n.disk[Key(dev, b)] == c.disk[Key(dev, b)]
    ensures Follows(n, dev, d, d, c.accesses[a].buf)
  {
    WorksOthers(c, store, n, a, c.accesses[a].buf, touched, c.accesses[a].buf);
    hide Inv, Touched;
  }

  /** Modify, write and pin do to the device what they should. */
  lemma WorkFollows(c: Cache, store: map<Key, Block>, e: Event, dev: nat, d: Device)
    requires Inv(c, store) && Enabled(c, e) && Stands(c, dev, d) && (e.Modify? || e.Write? || e.Pin?)
    ensures var act := ActOf(c, dev, e);
      && (act.Some? ==> act.value.b < |d.disk|)
      && Works(c, Next(c, e), e.a, c.accesses[e.a].buf, e.Modify?)
      && Follows(Next(c, e), dev, d, if act.Some? then Done(d, act.value) else d, c.accesses[e.a].buf)
  {
    hide Follows;
    var n, i, act := Next(c, e), c.accesses[e.a].buf, ActOf(c, dev, e);
    assert Settled(c, e.a) && Current(c, store, i);
    assert Works(c, n, e.a, i, e.Modify?);
    hide Inv, Stands, Works;
    if act.Some? {
      HeldView(c, store, e.a, dev, d);
      var b := act.value.b;
      assert n.disk == c.disk[Key(dev, b) := n.disk[Key(dev, b)]];
      SameDisk(c, store, dev, d, b);
      BlockFollows(c, store, n, e.a, e.Modify?, dev, d, Done(d, act.value));
    } else {
      ElsewhereFollows(c, store, n, e.a, e.Modify?, dev, d);
    }
  }

  lemma SameDisk(c: Cache, store: map<Key, Block>, dev: nat, d: Device, b: nat)
    requires Stands(c, dev, d) && b < |d.disk|
    ensures Key(dev, b) in c.disk && d.disk[b := c.disk[Key(dev, b)]] == d.disk
  {
  }

  lemma WorkStands(c: Cache, store: map<Key, Block>, e: Event, dev: nat, d: Device)
    requires Inv(c, store) && Enabled(c, e) && Stands(c, dev, d) && (e.Modify? || e.Write? || e.Pin?)
    ensures var act := ActOf(c, dev, e);
      && (act.Some? ==> act.value.b < |d.disk|)
      && Stands(Next(c, e), dev, if act.Some? then Done(d, act.value) else d)
  {
    hide Stands, Works, Follows;
    var act := ActOf(c, dev, e);
    WorkFollows(c, store, e, dev, d);
    WorkedStands(c, store, Next(c, e), e.a, c.accesses[e.a].buf, e.Modify?, dev, d,
      if act.Some? then Done(d, act.value) else d);
  }

  lemma StepStands(c: Cache, store: map<Key, Block>, e: Event, dev: nat, d: Device)
    requires Inv(c, store) && Enabled(c, e) && Stands(c, dev, d)
    ensures var act := ActOf(c, dev, e);
      && (act.Some? ==> act.value.b < |d.disk|)
      && Stands(Next(c, e), dev, if act.Some? then Done(d, act.value) else d)
  {
    hide Inv, Stands;
    if e.Modify? || e.Write? || e.Pin? {
      WorkStands(c, store, e, dev, d);
    } else if e.Get? || e.Unref? {
      ReferenceStands(c, store, e, dev, d);
    } else {
      LockingStands(c, store, e, dev, d);
    }
  }

  // ---- Runs ------------------------------------------------------------------------

  ghost function ActsOf(c: Cache, dev: nat, events: seq<Event>): seq<Act>
    requires IsRun(c, events)
    decreases |events|
  {
    if events == [] then []
    else
      var act := ActOf(c, dev, events[0]);
      (if act.Some? then [act.value] else []) + ActsOf(Next(c, events[0]), dev, events[1..])
  }

  lemma {:induction false} RunStands(c: Cache, store: map<Key, Block>, events: seq<Event>, dev: nat, d: Device)
    requires Inv(c, store) && IsRun(c, events) && Stands(c, dev, d)
    ensures OnDisk(d, ActsOf(c, dev, events))
    ensures Stands(Exec(c, events), dev, AllDone(d, ActsOf(c, dev, events)))
    decreases |events|
  {
    hide Inv, Stands, ActOf, Next, Enabled;
    if events != [] {
      StepStands(c, store, events[0], dev, d);
      StepKeepsInv(c, store, events[0]);
      var act := ActOf(c, dev, events[0]);
      var d' := if act.Some? then Done(d, act.value) else d;
      var rest := ActsOf(Next(c, events[0]), dev, events[1..]);
      RunStands(Next(c, events[0]), StoreNext(c, store, events[0]), events[1..], dev, d');
      if act.Some? {
        assert ([act.value] + rest)[1..] == rest;
      } else {
        assert [] + rest == rest;
      }
    }
  }

  /** The disk of a device, and nothing in memory. */
  ghost predicate Holds(disk: map<Key, Block>, dev: nat, blocks: seq<Block>) {
    && (forall b: nat :: Key(dev, b) in disk <==> b < |blocks|)
    && (forall b: nat :: b < |blocks| ==> disk[Key(dev, b)] == blocks[b])
  }

  /** In every run of the cache, with any number of processes, the device reached by the changes, writes and
      pins of the run has on its disk what the cache's disk has, and shows of each block what whoever reads
      it sees. */
  lemma CacheIsTheDevice(c: Cache, events: seq<Event>, dev: nat, blocks: seq<Block>, b: nat)
    requires Boot(c) && IsRun(c, events) && Holds(c.disk, dev, blocks) && b < |blocks|
    ensures var acts := ActsOf(c, dev, events);
      && OnDisk(Device(blocks, map[]), acts)
      && var d := AllDone(Device(blocks, map[]), acts);
      && Key(dev, b) in Exec(c, events).disk && Exec(c, events).disk[Key(dev, b)] == d.disk[b]
      && Key(dev, b) in StoreAfter(c, c.disk, events) && StoreAfter(c, c.disk, events)[Key(dev, b)] == View(d, b)
  {
    var d := Device(blocks, map[]);
    BootInv(c);
    BootStands(c, dev, blocks);
    RunStands(c, c.disk, events, dev, d);
    RunKeepsInv(c, c.disk, events);
    StandsView(Exec(c, events), StoreAfter(c, c.disk, events), dev, AllDone(d, ActsOf(c, dev, events)), b);
  }

  lemma BootStands(c: Cache, dev: nat, blocks: seq<Block>)
    requires Boot(c) && Holds(c.disk, dev, blocks)
    ensures Stands(c, dev, Device(blocks, map[]))
  {
  }

  // ---- The log's calls ------------------------------------------------------------------------

  /** What the log asks of the cache: bwrite of new contents, or log_write of them. */
  datatype Call = Bwrite(w: LogSpec.Write) | LogWrite(w: LogSpec.Write)

  function ActsFor(calls: seq<Call>): seq<Act> {
    if calls == [] then []
    else
      var call := calls[|calls| - 1];
      var b := call.w.blockno;
      ActsFor(calls[..|calls| - 1]) + [Change(b, call.w.data), if call.Bwrite? then Flush(b) else Keep(b)]
  }

  /** The block writes among them. */
  function Bwrites(calls: seq<Call>): seq<LogSpec.Write> {
    if calls == [] then []
    else Bwrites(calls[..|calls| - 1]) + if calls[|calls| - 1].Bwrite? then [calls[|calls| - 1].w] else []
  }

  predicate CallsOnDisk(d: Device, calls: seq<Call>) {
    forall i :: 0 <= i < |calls| ==> calls[i].w.blockno < |d.disk|
  }

  /** The device after the calls. */
  function Called(d: Device, calls: seq<Call>): (r: Device)
    requires CallsOnDisk(d, calls)
    ensures |r.disk| == |d.disk|
  {
    if calls == [] then d
    else
      var w, before := calls[|calls| - 1].w, Called(d, calls[..|calls| - 1]);
      if calls[|calls| - 1].Bwrite? then Written(before, w.blockno, w.data) else Pinned(before, w.blockno, w.data)
  }

  lemma {:induction false} CallsDone(d: Device, calls: seq<Call>)
    requires CallsOnDisk(d, calls)
    ensures OnDisk(d, ActsFor(calls)) && AllDone(d, ActsFor(calls)) == Called(d, calls)
    ensures Called(d, calls).disk == LogSpec.Apply(d.disk, Bwrites(calls))
  {
    if calls != [] {
      var pre, call := calls[..|calls| - 1], calls[|calls| - 1];
      CallsDone(d, pre);
      var b := call.w.blockno;
      var two := [Change(b, call.w.data), if call.Bwrite? then Flush(b) else Keep(b)];
      AllDoneAppend(d, ActsFor(pre), two);
      TwoActs(AllDone(d, ActsFor(pre)), two[0], two[1]);
      CallEffects(Called(d, pre), b, call.w.data);
      if call.Bwrite? {
        LogSpec.ApplyAppend(d.disk, Bwrites(pre), [call.w]);
        assert [call.w][..0] == [];
      } else {
        assert Bwrites(pre) + [] == Bwrites(pre);
      }
    }
  }

  lemma SizeKept(d: Device, a: Act)
    requires a.b < |d.disk|
    ensures |Done(d, a).disk| == |d.disk|
  {
  }

  lemma TwoActs(d: Device, a: Act, b: Act)
    requires a.b < |d.disk| && b.b < |d.disk|
    ensures AllDone(d, [a, b]) == Done(Done(d, a), b)
  {
    SizeKept(d, a);
    hide Done;
    var two, one := [a, b], [b];
    assert two[0] == a && two[1..] == one && one[0] == b && one[1..] == [];
    assert AllDone(d, two) == AllDone(Done(d, a), one);
    assert AllDone(Done(d, a), one) == AllDone(Done(Done(d, a), b), []);
  }

  /** In every run of the cache in which a disk is changed by the log's calls only, the blocks on that disk
      are those that the log's bwrites leave, in order, and whoever reads a block sees what the log's device
      shows: what is proved of the log's disk holds of the disk behind the cache. */
  lemma LogOnCache(c: Cache, events: seq<Event>, dev: nat, blocks: seq<Block>, calls: seq<Call>, b: nat)
    requires Boot(c) && IsRun(c, events) && Holds(c.disk, dev, blocks) && b < |blocks|
    requires CallsOnDisk(Device(blocks, map[]), calls) && ActsOf(c, dev, events) == ActsFor(calls)
    ensures var key := Key(dev, b);
      && key in Exec(c, events).disk
      && Exec(c, events).disk[key] == LogSpec.Apply(blocks, Bwrites(calls))[b]
      && key in StoreAfter(c, c.disk, events)
      && StoreAfter(c, c.disk, events)[key] == View(Called(Device(blocks, map[]), calls), b)
  {
    hide Boot, IsRun, Exec, StoreAfter, ActsFor, ActsOf, Called, Bwrites, View, AllDone;
    CallsDone(Device(blocks, map[]), calls);
    CacheIsTheDevice(c, events, dev, blocks, b);
  }
}
