/** Log space reservation: begin_op, log_write and end_op of concurrent operations, as steps
    taken in any order, with commit as the step that empties the log. log_write is two steps: it tests
    for space before it takes the lock under which it records the block. */
module LogReservation {
  import opened Params
  import opened Wrappers

  /** log.size - 2 for the log that mkfs lays out. */
  const CAPACITY: nat := LOGSIZE - 2

  /** An operation between its begin_op and its end_op: the blocks it has logged, and the one for which
      it is inside log_write, past the test for space. */
  datatype Op = Op(logged: set<nat>, tested: Option<nat>)

  /** `recorded` is the set of block numbers in log.lh. log.lh.n is |recorded|, log.outstanding
      |active|. */
  datatype State =
    | Running(recorded: set<nat>, active: seq<Op>, committing: bool)
    | Panicked

  datatype Event =
    | Begin
    | Test(op: nat, block: nat)
    | Record(op: nat)
    | End(op: nat)
    | Commit

  const Start: State := Running({}, [], false)

  /** begin_op's test; when it fails the caller sleeps and tests again. */
  predicate Admits(s: State)
    requires s.Running?
  {
    !s.committing && |s.recorded| + (|s.active| + 1) * MAXOPBLOCKS <= LOGSIZE - 2
  }

  function Without(active: seq<Op>, i: nat): seq<Op>
    requires i < |active|
  {
    active[..i] + active[i + 1..]
  }

  predicate Enabled(s: State, e: Event) {
    && s.Running?
    && match e
       case Begin => Admits(s)
       case Test(op, _) => op < |s.active| && s.active[op].tested.None?
       case Record(op) => op < |s.active| && s.active[op].tested.Some?
       case End(op) => op < |s.active| && s.active[op].tested.None?
       case Commit => s.committing
  }

  /** One step; log_write tests for space before it looks whether the block is a repeat. */
  function Next(s: State, e: Event): State
    requires Enabled(s, e)
  {
    match e
    case Begin =>
      s.(active := s.active + [Op({}, None)])
    case Test(op, b) =>
      if |s.recorded| >= LOGSIZE || |s.recorded| >= CAPACITY then Panicked
      else s.(active := s.active[op := s.active[op].(tested := Some(b))])
    case Record(op) =>
      var b := s.active[op].tested.value;
      s.(recorded := s.recorded + {b}, active := s.active[op := Op(s.active[op].logged + {b}, None)])
    case End(op) =>
      if s.committing then Panicked
      else s.(active := Without(s.active, op), committing := |s.active| == 1)
    case Commit =>
      s.(recorded := {}, committing := false)
  }

  /** The event keeps its operation within `limit` distinct blocks. */
  predicate Within(s: State, e: Event, limit: nat)
    requires Enabled(s, e)
  {
    e.Test? ==> |s.active[e.op].logged + {e.block}| <= limit
  }

  /** The state after `events`; an event that is not enabled leaves it as it is. */
  function Exec(events: seq<Event>): State {
    if events == [] then Start
    else
      var s, e := Exec(events[..|events| - 1]), events[|events| - 1];
      if Enabled(s, e) then Next(s, e) else s
  }

  /** A run: every event is enabled when it happens and keeps within the limit. */
  predicate IsRun(events: seq<Event>, limit: nat) {
    events == [] ||
      var s, e := Exec(events[..|events| - 1]), events[|events| - 1];
      IsRun(events[..|events| - 1], limit) && Enabled(s, e) && Within(s, e, limit)
  }

  lemma Extend(events: seq<Event>, e: Event, limit: nat)
    requires IsRun(events, limit) && Enabled(Exec(events), e) && Within(Exec(events), e, limit)
    ensures IsRun(events + [e], limit) && Exec(events + [e]) == Next(Exec(events), e)
  {
  }

  /** The blocks that the operations in progress may still log under their reservations. */
  function Unspent(active: seq<Op>): int {
    if active == [] then 0
    else Unspent(active[..|active| - 1]) + MAXOPBLOCKS - |active[|active| - 1].logged|
  }

  lemma {:induction false} UnspentAppend(a: seq<Op>, b: seq<Op>)
    ensures Unspent(a + b) == Unspent(a) + Unspent(b)
  {
    if b == [] {
      assert a + b == a;
    } else {
      assert (a + b)[..|a + b| - 1] == a + b[..|b| - 1];
      UnspentAppend(a, b[..|b| - 1]);
    }
  }

  lemma UnspentOne(o: Op)
    ensures Unspent([o]) == MAXOPBLOCKS - |o.logged|
  {
  }

  lemma UnspentSplit(a: seq<Op>, i: nat)
    requires i < |a|
    ensures Unspent(a) == Unspent(Without(a, i)) + MAXOPBLOCKS - |a[i].logged|
    ensures forall o :: Unspent(a[i := o]) == Unspent(Without(a, i)) + MAXOPBLOCKS - |o.logged|
  {
    UnspentAppend(a[..i], a[i + 1..]);
    forall o: Op
      ensures Unspent(a[i := o]) == Unspent(Without(a, i)) + MAXOPBLOCKS - |o.logged|
    {
      assert a[i := o] == a[..i] + [o] + a[i + 1..];
      UnspentAppend(a[..i] + [o], a[i + 1..]);
      UnspentAppend(a[..i], [o]);
      UnspentOne(o);
    }
    assert a[i := a[i]] == a;
  }

  lemma {:induction false} UnspentNonnegative(a: seq<Op>)
    requires forall i :: 0 <= i < |a| ==> |a[i].logged| <= MAXOPBLOCKS
    ensures Unspent(a) >= 0
  {
    if a != [] {
      UnspentNonnegative(a[..|a| - 1]);
    }
  }

  predicate Inv(s: State, limit: nat) {
    s.Running? ==>
      && |s.recorded| + Unspent(s.active) <= LOGSIZE - 2
      && (s.committing ==> s.active == [])
      && (forall i :: 0 <= i < |s.active| ==> OpOk(s, s.active[i], limit))
  }

  /** What an operation has logged is recorded, and with the block it is about to record stays within
      the limit. */
  predicate OpOk(s: State, o: Op, limit: nat)
    requires s.Running?
  {
    && o.logged <= s.recorded && |o.logged| <= limit
    && (o.tested.Some? ==> |o.logged + {o.tested.value}| <= limit)
  }

  lemma SizeOfUnion(s: set<nat>, b: nat)
    ensures |s + {b}| == if b in s then |s| else |s| + 1
  {
    if b in s {
      assert s + {b} == s;
    }
  }

  lemma BeginKeepsInv(s: State, limit: nat)
    requires Inv(s, limit) && Enabled(s, Begin)
    ensures Inv(Next(s, Begin), limit)
  {
    UnspentAppend(s.active, [Op({}, None)]);
    UnspentOne(Op({}, None));
    ReservedCoversUnspent(s.active);
  }

  lemma TestKeepsInv(s: State, e: Event, limit: nat)
    requires Inv(s, limit) && e.Test? && Enabled(s, e) && Within(s, e, limit)
    ensures Inv(Next(s, e), limit)
  {
    hide Unspent, Without;
    UnspentSplit(s.active, e.op);
  }

  lemma RecordKeepsInv(s: State, e: Event, limit: nat)
    requires Inv(s, limit) && e.Record? && Enabled(s, e)
    ensures Inv(Next(s, e), limit)
  {
    hide Unspent, Without;
    var o := s.active[e.op];
    assert OpOk(s, o, limit);
    UnspentSplit(s.active, e.op);
    SizeOfUnion(o.logged, o.tested.value);
    SizeOfUnion(s.recorded, o.tested.value);
  }

  lemma EndKeepsInv(s: State, op: nat, limit: nat)
    requires limit <= MAXOPBLOCKS && Inv(s, limit) && Enabled(s, End(op))
    ensures Inv(Next(s, End(op)), limit)
  {
    hide Unspent;
    UnspentSplit(s.active, op);
    assert OpOk(s, s.active[op], limit);
    if !s.committing {
      var n := Next(s, End(op));
      forall i | 0 <= i < |n.active|
        ensures OpOk(n, n.active[i], limit)
      {
        assert OpOk(s, s.active[if i < op then i else i + 1], limit);
      }
    }
  }

  lemma StepKeepsInv(s: State, e: Event, limit: nat)
    requires limit <= MAXOPBLOCKS && Inv(s, limit) && Enabled(s, e) && Within(s, e, limit)
    ensures Inv(Next(s, e), limit)
  {
    hide OpOk;
    match e
    case Begin => BeginKeepsInv(s, limit);
    case Test(_, _) => TestKeepsInv(s, e, limit);
    case Record(_) => RecordKeepsInv(s, e, limit);
    case End(op) => EndKeepsInv(s, op, limit);
    case Commit =>
  }

  lemma {:induction false} ReservedCoversUnspent(a: seq<Op>)
    ensures Unspent(a) <= |a| * MAXOPBLOCKS
  {
    if a != [] {
      ReservedCoversUnspent(a[..|a| - 1]);
    }
  }

  lemma {:induction false} RunKeepsInv(events: seq<Event>, limit: nat)
    requires limit <= MAXOPBLOCKS && IsRun(events, limit)
    ensures Inv(Exec(events), limit)
  {
    if events != [] {
      RunKeepsInv(events[..|events| - 1], limit);
      StepKeepsInv(Exec(events[..|events| - 1]), events[|events| - 1], limit);
    }
  }

  /** In every run, whatever its limit, a log with no operation in progress and no commit due holds nothing, and
      begin_op admits an operation. */
  lemma {:induction false} IdleAdmits(events: seq<Event>, limit: nat)
    requires IsRun(events, limit) && Exec(events).Running?
    ensures var s := Exec(events);
      s.active == [] && !s.committing ==> s.recorded == {} && Enabled(s, Begin)
    ensures Exec(events).committing ==> Exec(events).active == []
  {
    if events != [] {
      IdleAdmits(events[..|events| - 1], limit);
    }
  }

  /** After a commit nothing is recorded, nobody is in progress, and begin_op admits two operations; a third has to
      wait, even if those two log nothing. */
  lemma CommitEmpties(events: seq<Event>, limit: nat)
    requires IsRun(events, limit) && Enabled(Exec(events), Commit)
    ensures var s := Next(Exec(events), Commit);
      && s == Running({}, [], false) && Enabled(s, Begin)
      && var s1 := Next(s, Begin); Enabled(s1, Begin) && !Enabled(Next(s1, Begin), Begin)
  {
    IdleAdmits(events, limit);
  }

  /** The budget of one operation is part of the total. */
  lemma SlackOfOne(s: State, op: nat)
    requires Inv(s, MAXOPBLOCKS) && s.Running? && op < |s.active|
    ensures |s.recorded| + MAXOPBLOCKS - |s.active[op].logged| <= LOGSIZE - 2
    ensures OpOk(s, s.active[op], MAXOPBLOCKS)
  {
    assert OpOk(s, s.active[op], MAXOPBLOCKS);
    forall i | 0 <= i < |Without(s.active, op)|
      ensures |Without(s.active, op)[i].logged| <= MAXOPBLOCKS
    {
      assert OpOk(s, s.active[if i < op then i else i + 1], MAXOPBLOCKS);
    }
    UnspentSplit(s.active, op);
    UnspentNonnegative(Without(s.active, op));
  }

  /** In every interleaving where each operation logs at most MAXOPBLOCKS distinct blocks, the
      recorded blocks and the unspent reservations fit the log, a commit never finds an
      operation in progress, a block not yet recorded is always accepted, and what was accepted still
      fits when it is recorded, whatever others recorded in between. */
  lemma ReservationHolds(events: seq<Event>, e: Event)
    requires IsRun(events, MAXOPBLOCKS)
    requires Enabled(Exec(events), e) && Within(Exec(events), e, MAXOPBLOCKS)
    ensures var s := Exec(events);
      && |s.recorded| + Unspent(s.active) <= LOGSIZE - 2
      && (e.Commit? ==> s.active == [])
      && (e.End? ==> Next(s, e).Running?)
      && (e.Test? && e.block !in s.recorded ==> Next(s, e).Running?)
      && (e.Record? ==> |Next(s, e).recorded| <= CAPACITY)
  {
    var s := Exec(events);
    RunKeepsInv(events, MAXOPBLOCKS);
    if e.Test? && e.block !in s.recorded {
      SizeOfUnion(s.active[e.op].logged, e.block);
      SlackOfOne(s, e.op);
    }
    if e.Record? {
      SlackOfOne(s, e.op);
      SizeOfUnion(s.active[e.op].logged, s.active[e.op].tested.value);
      SizeOfUnion(s.recorded, s.active[e.op].tested.value);
    }
  }

  lemma LimitsGrow(s: State, limit: nat)
    requires limit <= MAXOPBLOCKS && Inv(s, limit)
    ensures Inv(s, MAXOPBLOCKS)
  {
    if s.Running? {
      forall i | 0 <= i < |s.active|
        ensures OpOk(s, s.active[i], MAXOPBLOCKS)
      {
        assert OpOk(s, s.active[i], limit);
      }
    }
  }

  /** With at most MAXOPBLOCKS - 1 distinct blocks each, no log_write panics, repeats included. */
  lemma {:induction false} NoPanicBelowLimit(events: seq<Event>)
    requires IsRun(events, MAXOPBLOCKS - 1)
    ensures Exec(events).Running?
  {
    if events != [] {
      var pre, e := events[..|events| - 1], events[|events| - 1];
      RunKeepsInv(pre, MAXOPBLOCKS - 1);
      NoPanicBelowLimit(pre);
      if e.Test? {
        assert OpOk(Exec(pre), Exec(pre).active[e.op], MAXOPBLOCKS - 1);
        LimitsGrow(Exec(pre), MAXOPBLOCKS - 1);
        SlackOfOne(Exec(pre), e.op);
      }
    }
  }

  /** With the full MAXOPBLOCKS the panic is reached exactly by a log_write while the log is
      full, and then the block is a repeat and the operation has spent its reservation. */
  lemma PanicExactly(events: seq<Event>, e: Event)
    requires IsRun(events, MAXOPBLOCKS)
    requires Enabled(Exec(events), e) && Within(Exec(events), e, MAXOPBLOCKS)
    ensures var s := Exec(events);
      && (Next(s, e).Panicked? <==> e.Test? && |s.recorded| == CAPACITY)
      && (Next(s, e).Panicked? ==> e.block in s.recorded && |s.active[e.op].logged| == MAXOPBLOCKS)
  {
    var s := Exec(events);
    RunKeepsInv(events, MAXOPBLOCKS);
    ReservationHolds(events, e);
    if e.Test? {
      SlackOfOne(s, e.op);
    }
  }

  // ---- A run in which an operation within its limit does panic -------------------

  function Blocks(lo: nat, hi: nat): (bs: set<nat>)
    requires lo <= hi
    ensures |bs| == hi - lo && forall b :: b in bs <==> lo <= b < hi
    decreases hi - lo
  {
    if lo == hi then {} else Blocks(lo, hi - 1) + {hi - 1}
  }

  lemma BlocksNone(lo: nat)
    ensures Blocks(lo, lo) == {}
  {
  }

  lemma BlocksNext(lo: nat, hi: nat)
    requires lo < hi
    ensures Blocks(lo, hi) == Blocks(lo, hi - 1) + {hi - 1}
  {
  }

  /** `before`, followed by operation `op` logging blocks lo, lo+1, ..., hi-1. */
  function Logging(before: seq<Event>, op: nat, lo: nat, hi: nat): seq<Event>
    requires lo <= hi
    decreases hi - lo
  {
    if lo == hi then before else Logging(before, op, lo, hi - 1) + [Test(op, hi - 1)] + [Record(op)]
  }

  lemma {:induction false} LogRange(before: seq<Event>, op: nat, lo: nat, hi: nat)
    requires IsRun(before, MAXOPBLOCKS)
    requires lo <= hi <= CAPACITY && hi - lo <= MAXOPBLOCKS
    requires Exec(before).Running? && op < |Exec(before).active|
    requires Exec(before).recorded == Blocks(0, lo) && Exec(before).active[op] == Op({}, None)
    ensures IsRun(Logging(before, op, lo, hi), MAXOPBLOCKS)
    ensures var s := Exec(before);
      Exec(Logging(before, op, lo, hi)) == s.(recorded := Blocks(0, hi),
        active := s.active[op := Op(Blocks(lo, hi), None)])
    decreases hi - lo
  {
    hide Exec, IsRun, Blocks, Unspent, Next, Enabled, Within;
    var s := Exec(before);
    if lo == hi {
      BlocksNone(lo);
      assert s.active[op := Op({}, None)] == s.active;
    } else {
      LogRange(before, op, lo, hi - 1);
      var done := Logging(before, op, lo, hi - 1);
      LogOne(s, op, lo, hi);
      Extend(done, Test(op, hi - 1), MAXOPBLOCKS);
      Extend(done + [Test(op, hi - 1)], Record(op), MAXOPBLOCKS);
    }
  }

  lemma LogOne(s: State, op: nat, lo: nat, hi: nat)
    requires s.Running? && op < |s.active| && lo < hi <= CAPACITY && hi - lo <= MAXOPBLOCKS
    ensures var s1 := s.(recorded := Blocks(0, hi - 1), active := s.active[op := Op(Blocks(lo, hi - 1), None)]);
      && Enabled(s1, Test(op, hi - 1)) && Within(s1, Test(op, hi - 1), MAXOPBLOCKS)
      && var s2 := Next(s1, Test(op, hi - 1));
      && Enabled(s2, Record(op)) && Within(s2, Record(op), MAXOPBLOCKS)
      && Next(s2, Record(op)) == s.(recorded := Blocks(0, hi), active := s.active[op := Op(Blocks(lo, hi), None)])
  {
    hide Blocks;
    BlocksNext(lo, hi);
    BlocksNext(0, hi);
    var o := Op(Blocks(lo, hi - 1), Some(hi - 1));
    assert s.active[op := Op(Blocks(lo, hi - 1), None)][op := o] == s.active[op := o];
    assert s.active[op := o][op := Op(Blocks(lo, hi), None)] == s.active[op := Op(Blocks(lo, hi), None)];
  }

  /** A first operation logs 8 blocks and ends while a second is in progress, so that a third
      is admitted. */
  lemma TwoAfterEight() returns (events: seq<Event>)
    ensures IsRun(events, MAXOPBLOCKS)
    ensures Exec(events) == Running(Blocks(0, 8), [Op({}, None), Op({}, None)], false)
  {
    hide Exec, IsRun, Logging, Blocks;
    NoEvents();
    BlocksNone(0);
    events := [];
    Extend(events, Begin, MAXOPBLOCKS);
    events := events + [Begin];
    assert Exec(events) == Running({}, [Op({}, None)], false);
    Extend(events, Begin, MAXOPBLOCKS);
    events := events + [Begin];
    assert Exec(events) == Running({}, [Op({}, None), Op({}, None)], false);
    LogRange(events, 1, 0, 8);
    events := Logging(events, 1, 0, 8);
    assert Exec(events) == Running(Blocks(0, 8), [Op({}, None), Op(Blocks(0, 8), None)], false);
    Extend(events, End(1), MAXOPBLOCKS);
    events := events + [End(1)];
    assert Exec(events) == Running(Blocks(0, 8), [Op({}, None)], false);
    Extend(events, Begin, MAXOPBLOCKS);
    events := events + [Begin];
  }

  lemma NoEvents()
    ensures Exec([]) == Start && IsRun([], MAXOPBLOCKS)
  {
  }

  /** Operations that never log more than ten distinct blocks each can fill the log, and then
      a log_write of a block already recorded panics. */
  lemma FullLogPanics() returns (events: seq<Event>)
    ensures IsRun(events, MAXOPBLOCKS) && Exec(events).Panicked?
  {
    hide Exec, IsRun, Logging, Blocks;
    events := TwoAfterEight();
    LogRange(events, 0, 8, 18);
    events := Logging(events, 0, 8, 18);
    LogRange(events, 1, 18, 28);
    events := Logging(events, 1, 18, 28);
    assert Exec(events).active[0].logged + {8} == Blocks(8, 18);
    Extend(events, Test(0, 8), MAXOPBLOCKS);
    events := events + [Test(0, 8)];
  }
}
