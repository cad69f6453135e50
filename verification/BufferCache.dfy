/** The buffer cache's own data structure: the buffers on a doubly linked circular list, most recently
    used first, searched and spliced in place. */
module BufferCache {
  import opened Blocks
  import opened Wrappers
  import opened BufferSpec

  /** Node k of the circle: the head, the buffers in order, the head again. The head is not a buffer; its
      number is that of the buffers. */
  function Node(order: seq<nat>, head: nat, k: nat): nat {
    if 0 < k <= |order| then order[k - 1] else head
  }

  /** next and prev run around the circle. */
  ghost predicate Linked(next: seq<nat>, prev: seq<nat>, order: seq<nat>, head: nat) {
    && |next| == |prev| == head + 1
    && (forall j :: 0 <= j < |order| ==> order[j] < head)
    && (forall j, k :: 0 <= j < k < |order| ==> order[j] != order[k])
    && (forall k: nat :: k <= |order| ==> Joined(next, prev, order, head, k))
  }

  ghost predicate Joined(next: seq<nat>, prev: seq<nat>, order: seq<nat>, head: nat, k: nat) {
    var x, y := Node(order, head, k), Node(order, head, k + 1);
    x < |next| && y < |prev| && next[x] == y && prev[y] == x
  }

  lemma FrontLinked(next: seq<nat>, prev: seq<nat>, order: seq<nat>, head: nat, b: nat)
    requires Linked(next, prev, order, head) && b < head && b !in order
    ensures next[head] <= head
    ensures Linked(next[b := next[head]][head := b], prev[b := head][next[head] := b], [b] + order, head)
  {
    assert Joined(next, prev, order, head, 0);
    var next', prev', order' := next[b := next[head]][head := b], prev[b := head][next[head] := b], [b] + order;
    forall k: nat | k <= |order'|
      ensures Joined(next', prev', order', head, k)
    {
      assert k > 0 ==> Node(order', head, k) == if k == 1 then b else Node(order, head, k - 1);
      assert Node(order', head, k + 1) == if k == 0 then b else Node(order, head, k);
      assert k > 0 ==> Joined(next, prev, order, head, k - 1);
    }
  }

  lemma UnlinkedAt(next: seq<nat>, prev: seq<nat>, order: seq<nat>, head: nat, k: nat)
    requires Linked(next, prev, order, head) && k < |order|
    ensures var b := order[k];
      && next[b] <= head && prev[b] <= head
      && Linked(next[prev[b] := next[b]], prev[next[b] := prev[b]], order[..k] + order[k + 1..], head)
      && b !in order[..k] + order[k + 1..]
  {
    var b, r := order[k], order[..k] + order[k + 1..];
    assert Joined(next, prev, order, head, k) && Joined(next, prev, order, head, k + 1);
    assert Node(order, head, k + 1) == b;
    var next', prev' := next[prev[b] := next[b]], prev[next[b] := prev[b]];
    forall j: nat | j <= |r|
      ensures Joined(next', prev', r, head, j)
    {
      assert Node(r, head, j) == if j <= k then Node(order, head, j) else Node(order, head, j + 1);
      assert Node(r, head, j + 1) == if j < k then Node(order, head, j + 1) else Node(order, head, j + 2);
      assert Joined(next, prev, order, head, j) && (j < |order| ==> Joined(next, prev, order, head, j + 1));
    }
  }

  /** A search from the front that has passed k - 1 buffers. */
  lemma {:induction false} CachedFrom(bufs: seq<Buf>, order: seq<nat>, key: Key, k: nat)
    requires k <= |order| && forall j :: 0 <= j < |order| ==> order[j] < |bufs|
    requires forall j :: 0 <= j < k ==> bufs[order[j]].key != key
    ensures Cached(bufs, order, key) == Cached(bufs, order[k..], key)
  {
    if k == 0 {
      assert order[0..] == order;
    } else {
      CachedFrom(bufs, order[1..], key, k - 1);
      assert order[1..][k - 1..] == order[k..];
    }
  }

  /** A search from the back that has k buffers left. */
  lemma {:induction false} VictimUpTo(bufs: seq<Buf>, order: seq<nat>, k: nat)
    requires k <= |order| && forall j :: 0 <= j < |order| ==> order[j] < |bufs|
    requires forall j :: k <= j < |order| ==> !Idle(bufs[order[j]])
    ensures Victim(bufs, order) == Victim(bufs, order[..k])
    decreases |order|
  {
    if k == |order| {
      assert order[..k] == order;
    } else {
      VictimUpTo(bufs, order[..|order| - 1], k);
      assert order[..|order| - 1][..k] == order[..k];
    }
  }

  /** Buffer b, from wherever it stood, is first on the list now; the others are in the order they were in. */
  ghost predicate MovedFirst(before: seq<nat>, after: seq<nat>, b: nat) {
    exists k: nat :: k < |before| && before[k] == b && after == [b] + before[..k] + before[k + 1..]
  }

  lemma FrontFirst(order: seq<nat>, b: nat)
    requires b in order
    ensures MovedFirst(order, ToFront(order, b), b)
  {
    var k := Position(order, b);
    assert order[k] == b;
    assert [b] + order[..k] + order[k + 1..] == [b] + (order[..k] + order[k + 1..]);
  }

  /** Buffer b is idle and no buffer after it on the list is: of the idle ones it was used the longest ago. */
  ghost predicate LastIdle(bufs: seq<Buf>, order: seq<nat>, b: nat) {
    exists k: nat :: k < |order| && IdleAt(bufs, order, k) && order[k] == b &&
      forall j: nat :: k < j < |order| ==> !IdleAt(bufs, order, j)
  }

  predicate IdleAt(bufs: seq<Buf>, order: seq<nat>, k: nat)
    requires k < |order|
  {
    order[k] < |bufs| && bufs[order[k]].refcnt == 0 && !bufs[order[k]].dirty
  }

  class Bcache {
    const nbuf: nat
    var bufs: seq<Buf>
    var next: seq<nat>
    var prev: seq<nat>
    ghost var order: seq<nat>

    ghost predicate Valid()
      reads this
    {
      |bufs| == nbuf && Permutation(order, nbuf) && Linked(next, prev, order, nbuf)
    }

    /** binit: every buffer, unused, on the list once. */
    constructor (count: nat)
      ensures Valid() && nbuf == count
      ensures forall i :: 0 <= i < nbuf ==> Unused(bufs[i])
    {
      nbuf := count;
      bufs := seq(count, _ => Buf(NOKEY, false, false, 0, None, ZeroBlock()));
      next := seq(count + 1, _ => count);
      prev := seq(count + 1, _ => count);
      order := [];
      new;
      assert Joined(next, prev, order, nbuf, 0);
      for b := 0 to nbuf
        invariant |bufs| == nbuf && Linked(next, prev, order, nbuf) && |order| == b
        invariant forall i :: 0 <= i < nbuf ==> Unused(bufs[i])
        invariant forall i: nat :: i in order <==> i < b
      {
        PushFront(b);
      }
    }

    /** Links b in right after the head. */
    method PushFront(b: nat)
      requires Linked(next, prev, order, nbuf) && b < nbuf && b !in order
      modifies `next, `prev, `order
      ensures Linked(next, prev, order, nbuf) && order == [b] + old(order)
    {
      FrontLinked(next, prev, order, nbuf, b);
      var first := next[nbuf];
      next := next[b := first];
      prev := prev[b := nbuf];
      prev := prev[first := b];
      next := next[nbuf := b];
      order := [b] + order;
    }

    /** The first loop of bget. */
    method FindCached(key: Key) returns (r: Option<nat>)
      requires Valid()
      ensures r == Cached(bufs, order, key)
    {
      hide Cached;
      assert Joined(next, prev, order, nbuf, 0);
      ghost var k := 0;
      var b := next[nbuf];
      while b != nbuf
        invariant k <= |order| && b == Node(order, nbuf, k + 1)
        invariant forall j :: 0 <= j < k ==> bufs[order[j]].key != key
        decreases |order| - k
      {
        if bufs[b].key == key {
          CachedHere(bufs, order, key, k);
          return Some(b);
        }
        assert Joined(next, prev, order, nbuf, k + 1);
        b := next[b];
        k := k + 1;
      }
      CachedNowhere(bufs, order, key);
      r := None;
    }

    /** The second loop of bget. */
    method FindIdle() returns (r: Option<nat>)
      requires Valid()
      ensures r == Victim(bufs, order)
      ensures if r.Some? then LastIdle(bufs, order, r.value)
        else forall i :: 0 <= i < nbuf ==> bufs[i].refcnt > 0 || bufs[i].dirty
    {
      hide Victim;
      ghost var k := |order|;
      assert Joined(next, prev, order, nbuf, k);
      var b := prev[nbuf];
      while b != nbuf
        invariant 0 <= k <= |order| && b == Node(order, nbuf, k)
        invariant forall j :: k <= j < |order| ==> !Idle(bufs[order[j]])
        decreases k
      {
        if bufs[b].refcnt == 0 && !bufs[b].dirty {
          VictimHere(bufs, order, k);
          assert IdleAt(bufs, order, k - 1);
          return Some(b);
        }
        assert Joined(next, prev, order, nbuf, k - 1);
        b := prev[b];
        k := k - 1;
      }
      VictimNowhere(bufs, order);
      r := None;
    }

    /** bget's critical section: the buffer it settles on gets a reference, and a new block if it was
        recycled; None is the panic. */
    method Bget(key: Key) returns (r: Option<nat>)
      requires Valid()
      modifies `bufs
      ensures Valid() && r == Pick(old(bufs), order, key)
      ensures bufs == if r.Some? then old(bufs)[r.value := Referenced(old(bufs)[r.value], key)] else old(bufs)
      ensures (exists i :: 0 <= i < nbuf && old(bufs)[i].key == key) ==>
        && r.Some? && r.value < nbuf && old(bufs)[r.value].key == key
        && bufs == old(bufs)[r.value := old(bufs)[r.value].(refcnt := old(bufs)[r.value].refcnt + 1)]
      ensures (forall i :: 0 <= i < nbuf ==> old(bufs)[i].key != key) ==>
        if r.Some? then
          && LastIdle(old(bufs), order, r.value)
          && bufs == old(bufs)[r.value := old(bufs)[r.value].(key := key, valid := false, dirty := false, refcnt := 1)]
        else bufs == old(bufs) && forall i :: 0 <= i < nbuf ==> bufs[i].refcnt > 0 || bufs[i].dirty
    {
      r := FindCached(key);
      if r.Some? {
        var b := bufs[r.value];
        bufs := bufs[r.value := b.(refcnt := b.refcnt + 1)];
        return;
      }
      r := FindIdle();
      if r.Some? {
        bufs := bufs[r.value := bufs[r.value].(key := key, valid := false, dirty := false, refcnt := 1)];
      }
    }

    /** brelse's critical section: the last reference moves the buffer to the front. */
    method Brelse(b: nat)
      requires Valid() && b < nbuf && bufs[b].refcnt >= 1
      modifies this
      ensures Valid() && bufs == old(bufs)[b := old(bufs)[b].(refcnt := old(bufs)[b].refcnt - 1)]
      ensures order == if old(bufs)[b].refcnt == 1 then ToFront(old(order), b) else old(order)
      ensures old(bufs)[b].refcnt == 1 ==> MovedFirst(old(order), order, b)
    {
      hide Linked, Permutation, MovedFirst;
      bufs := bufs[b := bufs[b].(refcnt := bufs[b].refcnt - 1)];
      if bufs[b].refcnt == 0 {
        InList(order, nbuf, b);
        ToFrontPermutes(order, nbuf, b);
        Unlink(b);
        PushFront(b);
        assert order == ToFront(old(order), b);
        FrontFirst(old(order), b);
      }
    }

    /** Takes b off the list. */
    method Unlink(b: nat)
      requires Linked(next, prev, order, nbuf) && b in order
      modifies `next, `prev, `order
      ensures Linked(next, prev, order, nbuf) && b !in order
      ensures var k := Position(old(order), b); order == old(order)[..k] + old(order)[k + 1..]
    {
      ghost var k := Position(order, b);
      UnlinkedAt(next, prev, order, nbuf, k);
      var n, p := next[b], prev[b];
      prev := prev[n := p];
      next := next[p := n];
      order := order[..k] + order[k + 1..];
    }
  }

  lemma InList(order: seq<nat>, nbuf: nat, b: nat)
    requires Permutation(order, nbuf) && b < nbuf
    ensures b in order
  {
  }

  lemma CachedHere(bufs: seq<Buf>, order: seq<nat>, key: Key, k: nat)
    requires k < |order| && forall j :: 0 <= j < |order| ==> order[j] < |bufs|
    requires forall j :: 0 <= j < k ==> bufs[order[j]].key != key
    requires bufs[order[k]].key == key
    ensures Cached(bufs, order, key) == Some(order[k])
  {
    CachedFrom(bufs, order, key, k);
  }

  lemma CachedNowhere(bufs: seq<Buf>, order: seq<nat>, key: Key)
    requires forall j :: 0 <= j < |order| ==> order[j] < |bufs|
    requires forall j :: 0 <= j < |order| ==> bufs[order[j]].key != key
    ensures Cached(bufs, order, key) == None
  {
  }

  lemma VictimHere(bufs: seq<Buf>, order: seq<nat>, k: nat)
    requires 0 < k <= |order| && forall j :: 0 <= j < |order| ==> order[j] < |bufs|
    requires forall j :: k <= j < |order| ==> !Idle(bufs[order[j]])
    requires Idle(bufs[order[k - 1]])
    ensures Victim(bufs, order) == Some(order[k - 1])
  {
  }

  lemma VictimNowhere(bufs: seq<Buf>, order: seq<nat>)
    requires forall j :: 0 <= j < |order| ==> order[j] < |bufs|
    requires forall j :: 0 <= j < |order| ==> !Idle(bufs[order[j]])
    ensures Victim(bufs, order) == None
  {
  }
}
