/** A disk behind a cache as the log uses it: what has reached the disk, and the blocks whose latest
    contents are only in memory. */
module BlockDevice {
  import opened Blocks

  datatype Device = Device(disk: seq<Block>, pinned: map<nat, Block>)

  /** What a read of block b gives. */
  function View(d: Device, b: nat): Block
    requires b < |d.disk|
  {
    if b in d.pinned then d.pinned[b] else d.disk[b]
  }

  /** What happens to a block: its contents change in memory, they go to the disk, or they are to stay in
      memory for now. */
  datatype Act = Change(b: nat, data: Block) | Flush(b: nat) | Keep(b: nat)

  function Done(d: Device, a: Act): Device
    requires a.b < |d.disk|
  {
    match a
    case Change(b, data) => d.(pinned := d.pinned[b := data])
    case Flush(b) => Device(d.disk[b := View(d, b)], d.pinned - {b})
    case Keep(b) => d.(pinned := d.pinned[b := View(d, b)])
  }

  /** bwrite of new contents. */
  function Written(d: Device, b: nat, data: Block): Device
    requires b < |d.disk|
  {
    Done(Done(d, Change(b, data)), Flush(b))
  }

  /** log_write of new contents. */
  function Pinned(d: Device, b: nat, data: Block): Device
    requires b < |d.disk|
  {
    Done(Done(d, Change(b, data)), Keep(b))
  }

  lemma CallEffects(d: Device, b: nat, data: Block)
    requires b < |d.disk|
    ensures Written(d, b, data) == Device(d.disk[b := data], d.pinned - {b})
    ensures Pinned(d, b, data) == d.(pinned := d.pinned[b := data])
  {
    assert d.pinned[b := data] - {b} == d.pinned - {b};
    assert d.pinned[b := data][b := data] == d.pinned[b := data];
  }

  /** Acts on blocks of the disk. */
  predicate OnDisk(d: Device, acts: seq<Act>) {
    forall i :: 0 <= i < |acts| ==> acts[i].b < |d.disk|
  }

  function AllDone(d: Device, acts: seq<Act>): (r: Device)
    requires OnDisk(d, acts)
    ensures |r.disk| == |d.disk|
    decreases |acts|
  {
    if acts == [] then d else AllDone(Done(d, acts[0]), acts[1..])
  }

  lemma {:induction false} AllDoneAppend(d: Device, a: seq<Act>, b: seq<Act>)
    requires OnDisk(d, a) && OnDisk(d, b)
    ensures OnDisk(d, a + b) && OnDisk(AllDone(d, a), b) && AllDone(d, a + b) == AllDone(AllDone(d, a), b)
    decreases |a|
  {
    if a == [] {
      assert a + b == b;
    } else {
      assert (a + b)[1..] == a[1..] + b && (a + b)[0] == a[0];
      AllDoneAppend(Done(d, a[0]), a[1..], b);
    }
  }
}
