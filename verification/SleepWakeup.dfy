/** sleep and wakeup for any number of processes and channels, interleaved at every lock operation.
    Each channel has a count, guarded by a spinlock that may guard other channels too. Processes wait
    for a count to be positive and take one, or add one and wake those who sleep on the channel; a
    channel with a count of one is a sleep lock. */
module SleepWakeup {
  import opened Wrappers

  /** Where a process stands in its work on a channel. `lk` is the spinlock that guards the channel. */
  datatype Pc =
    | Idle
    | WantLk                         // acquire(lk)
    | Testing                        // holds lk, looks at the count
    | WantTable                      // holds lk; in sleep, acquire(ptable.lock)
    | Releasing                      // holds both; release(lk)
    | Dozing                         // holds the table; about to be SLEEPING
    | Asleep                         // SLEEPING, given up the processor
    | Runnable                       // woken, waits for the scheduler
    | Rising                         // runs again, holding the table
    | Taking                         // holds lk; has taken one
    | WantGive                       // acquire(lk), to add one
    | Giving                         // holds lk; about to add one
    | Given                          // holds lk; has added one
    | WantWake(held: bool)           // in wakeup, acquire(ptable.lock); still holds lk or not
    | Waking(k: nat, held: bool)     // holds the table; next looks at process k
    | Leaving                        // holds lk; release(lk)

  /** A process, the channel it works or sleeps on, and the channels it has taken one from and not yet
      begun to give it back. */
  datatype Proc = Proc(pc: Pc, chan: nat, owns: set<nat>)

  /** `guard` tells which spinlock guards a channel, `pid` who took one last. */
  datatype State = State(
    procs: seq<Proc>,
    guard: seq<nat>,
    count: seq<nat>,
    pid: seq<Option<nat>>,
    lk: seq<Option<nat>>,
    table: Option<nat>)

  /** What may happen next. `Step` is the one thing a busy process does next; the other events are
      choices of a process, and `Kill` is another process's kill, which wakes a sleeper on any channel. */
  datatype Event =
    | Step(p: nat)
    | Start(p: nat, c: nat)
    | Finish(p: nat, c: nat)
    | Keep(p: nat, c: nat)
    | Produce(p: nat, c: nat)
    | Early(p: nat)
    | Kill(p: nat)

  predicate HoldsLk(pc: Pc) {
    match pc
    case Testing | WantTable | Releasing | Taking | Giving | Given | Leaving => true
    case WantWake(held) => held
    case Waking(_, held) => held
    case _ => false
  }

  predicate HoldsTable(pc: Pc) {
    pc.Releasing? || pc.Dozing? || pc.Rising? || pc.Waking?
  }

  /** Every channel has a guard, and every process is on a channel. */
  predicate Wf(s: State) {
    && |s.guard| == |s.count| == |s.pid|
    && (forall c :: 0 <= c < |s.guard| ==> s.guard[c] < |s.lk|)
    && (forall p :: 0 <= p < |s.procs| ==> s.procs[p].chan < |s.count|)
  }

  predicate Enabled(s: State, e: Event)
    requires Wf(s)
  {
    && e.p < |s.procs|
    && match e
       case Step(p) => StepEnabled(s, s.procs[p])
       case Start(p, c) => s.procs[p].pc.Idle? && c < |s.count|
       case Finish(p, c) => s.procs[p].pc.Idle? && c < |s.count| && c in s.procs[p].owns
       case Keep(p, c) => s.procs[p].pc.Idle? && c in s.procs[p].owns
       case Produce(p, c) => s.procs[p].pc.Idle? && c < |s.count|
       case Early(p) => s.procs[p].pc.Given?
       case Kill(p) => s.procs[p].pc.Asleep? && s.table.None?
  }

  /** A spinlock can be taken only when it is free. */
  predicate StepEnabled(s: State, proc: Proc)
    requires Wf(s) && proc.chan < |s.count|
  {
    match proc.pc
    case WantLk | WantGive => s.lk[s.guard[proc.chan]].None?
    case WantTable | Runnable | WantWake(_) => s.table.None?
    case Idle | Asleep => false
    case _ => true
  }

  function Goto(s: State, p: nat, pc: Pc): State
    requires p < |s.procs|
  {
    s.(procs := s.procs[p := s.procs[p].(pc := pc)])
  }

  function Begin(s: State, p: nat, pc: Pc, c: nat): State
    requires p < |s.procs|
  {
    s.(procs := s.procs[p := Proc(pc, c, s.procs[p].owns)])
  }

  function Owned(s: State, p: nat, owns: set<nat>): State
    requires p < |s.procs|
  {
    s.(procs := s.procs[p := s.procs[p].(owns := owns)])
  }

  /** The guard of p's channel is held by h from now on. */
  function SetLk(s: State, p: nat, h: Option<nat>): State
    requires Wf(s) && p < |s.procs|
  {
    s.(lk := s.lk[s.guard[s.procs[p].chan] := h])
  }

  function SetCount(s: State, c: nat, n: nat, pid: Option<nat>): State
    requires Wf(s) && c < |s.count|
  {
    s.(count := s.count[c := n], pid := s.pid[c := pid])
  }

  function Next(s: State, e: Event): State
    requires Wf(s) && Enabled(s, e)
  {
    match e
    case Step(p) => StepNext(s, p)
    case Start(p, c) => Begin(s, p, WantLk, c)
    case Finish(p, c) => Begin(Owned(s, p, s.procs[p].owns - {c}), p, WantGive, c)
    case Keep(p, c) => Owned(s, p, s.procs[p].owns - {c})
    case Produce(p, c) => Begin(s, p, WantGive, c)
    case Early(p) => Goto(SetLk(s, p, None), p, WantWake(false))
    case Kill(p) => Goto(s, p, Runnable)
  }

  function StepNext(s: State, p: nat): State
    requires Wf(s) && p < |s.procs| && StepEnabled(s, s.procs[p])
  {
    var c := s.procs[p].chan;
    match s.procs[p].pc
    case WantLk => Goto(SetLk(s, p, Some(p)), p, Testing)
    case Testing => if s.count[c] == 0 then Goto(s, p, WantTable)
      else Goto(SetCount(s, c, s.count[c] - 1, Some(p)), p, Taking)
    case WantTable => Goto(s, p, Releasing).(table := Some(p))
    case Releasing => Goto(SetLk(s, p, None), p, Dozing)
    case Dozing => Goto(s, p, Asleep).(table := None)
    case Runnable => Goto(s, p, Rising).(table := Some(p))
    case Rising => Goto(s, p, WantLk).(table := None)
    case Taking => Goto(Owned(SetLk(s, p, None), p, s.procs[p].owns + {c}), p, Idle)
    case WantGive => Goto(SetLk(s, p, Some(p)), p, Giving)
    case Giving => Goto(SetCount(s, c, s.count[c] + 1, None), p, Given)
    case Given => Goto(s, p, WantWake(true))
    case WantWake(held) => Goto(s, p, Waking(0, held)).(table := Some(p))
    case Waking(k, held) =>
      if k < |s.procs| then
        Goto(if Sleeping(s.procs[k], c) then Goto(s, k, Runnable) else s, p, Waking(k + 1, held))
      else
        Goto(s, p, if held then Leaving else Idle).(table := None)
    case Leaving => Goto(SetLk(s, p, None), p, Idle)
    case _ => s
  }

  /** SLEEPING, and on this channel. */
  predicate Sleeping(proc: Proc, c: nat) {
    proc.pc.Asleep? && proc.chan == c
  }

  // ---- The invariant --------------------------------------------------------------------

  predicate Holds(s: State, p: nat, l: nat)
    requires Wf(s) && p < |s.procs|
  {
    HoldsLk(s.procs[p].pc) && s.guard[s.procs[p].chan] == l
  }

  /** A spinlock belongs to the process whose program counter and channel say so, and to no other. */
  ghost predicate Locks(s: State) {
    && Wf(s)
    && (forall p: nat, l: nat {:trigger Holds(s, p, l)} :: p < |s.procs| && l < |s.lk| ==>
      (s.lk[l] == Some(p) <==> Holds(s, p, l)))
    && (forall p :: 0 <= p < |s.procs| ==> (s.table == Some(p) <==> HoldsTable(s.procs[p].pc)))
    && (forall l :: 0 <= l < |s.lk| && s.lk[l].Some? ==> s.lk[l].value < |s.procs|)
    && (s.table.Some? ==> s.table.value < |s.procs|)
  }

  /** A process on channel c will still look at process p in a wakeup. */
  predicate WillWake(proc: Proc, p: nat, c: nat) {
    proc.chan == c && (proc.pc.Given? || proc.pc.WantWake? || (proc.pc.Waking? && proc.pc.k <= p))
  }

  /** A wakeup on p's channel is still to come to p. */
  ghost predicate Pending(s: State, p: nat)
    requires p < |s.procs|
  {
    exists q :: 0 <= q < |s.procs| && WillWake(s.procs[q], p, s.procs[p].chan)
  }

  /** Sleeping, or past the point of no return. */
  predicate Down(proc: Proc) {
    proc.pc.Asleep? || proc.pc.Dozing?
  }

  /** No lost wakeup: whoever is down on a channel with a positive count has a wakeup still to come. */
  ghost predicate NoLostWakeup(s: State) {
    && Wf(s)
    && forall p {:trigger Down(s.procs[p])} ::
      0 <= p < |s.procs| && Down(s.procs[p]) && s.count[s.procs[p].chan] > 0 ==> Pending(s, p)
  }

  /** Found the count zero, and still holds the lock. */
  predicate Bound(proc: Proc) {
    proc.pc.WantTable? || proc.pc.Releasing?
  }

  /** Such a process cannot have missed a change. */
  ghost predicate Tested(s: State) {
    && Wf(s)
    && forall p {:trigger Bound(s.procs[p])} :: 0 <= p < |s.procs| && Bound(s.procs[p]) ==>
      s.count[s.procs[p].chan] == 0
  }

  ghost predicate Inv(s: State) {
    Locks(s) && NoLostWakeup(s) && Tested(s)
  }

  lemma Sizes(s: State, e: Event)
    requires Wf(s) && Enabled(s, e)
    ensures var n := Next(s, e);
      && |n.procs| == |s.procs| && n.guard == s.guard && |n.lk| == |s.lk| && |n.count| == |s.count| &&
        |n.pid| == |s.pid|
      && n.procs[e.p].chan < |s.count|
  {
  }

  /** A step moves one process, and perhaps wakes another. */
  lemma Others(s: State, e: Event, q: nat)
    requires Wf(s) && Enabled(s, e) && q < |s.procs| && q != e.p && q < |Next(s, e).procs|
    ensures Next(s, e).procs[q] == s.procs[q] || (s.procs[q].pc.Asleep? &&
      Next(s, e).procs[q] == s.procs[q].(pc := Runnable))
  {
  }

  lemma Moves(s: State, e: Event)
    requires Wf(s) && Enabled(s, e)
    ensures var n := Next(s, e);
      && Wf(n) && |n.procs| == |s.procs| && n.guard == s.guard && |n.lk| == |s.lk|
      && forall q :: 0 <= q < |s.procs| && q != e.p ==>
        n.procs[q] == s.procs[q] || (s.procs[q].pc.Asleep? && n.procs[q] == s.procs[q].(pc := Runnable))
  {
    Sizes(s, e);
    var n := Next(s, e);
    hide Next, Enabled;
    forall q | 0 <= q < |s.procs| && q != e.p
      ensures n.procs[q] == s.procs[q] || (s.procs[q].pc.Asleep? && n.procs[q] == s.procs[q].(pc := Runnable))
    {
      Others(s, e, q);
    }
  }

  /** The moving process takes free locks only and gives up its own only. */
  lemma OwnLock(s: State, e: Event, l: nat)
    requires Wf(s) && Enabled(s, e) && l < |s.lk|
    requires s.lk[l] == Some(e.p) <==> Holds(s, e.p, l)
    ensures var n, p := Next(s, e), e.p;
      && Wf(n) && p < |n.procs| && l < |n.lk|
      && n.lk[l] == (if Holds(n, p, l) then Some(p) else if Holds(s, p, l) then None else s.lk[l])
      && (Holds(n, p, l) && !Holds(s, p, l) ==> s.lk[l] == None)
  {
    Moves(s, e);
  }

  lemma OwnTable(s: State, e: Event)
    requires Wf(s) && Enabled(s, e)
    requires s.table == Some(e.p) <==> HoldsTable(s.procs[e.p].pc)
    ensures var n, p := Next(s, e), e.p;
      && p < |n.procs|
      && if HoldsTable(n.procs[p].pc) then n.table == Some(p) && (s.table == Some(p) || s.table == None)
         else n.table == if HoldsTable(s.procs[p].pc) then None else s.table
  {
  }

  lemma LockKept(s: State, e: Event, p: nat, l: nat)
    requires Locks(s) && Enabled(s, e) && Wf(Next(s, e)) && p < |s.procs| == |Next(s, e).procs| &&
      l < |s.lk| == |Next(s, e).lk|
    ensures Next(s, e).lk[l] == Some(p) <==> Holds(Next(s, e), p, l)
    ensures Next(s, e).lk[l].Some? ==> Next(s, e).lk[l].value < |s.procs|
  {
    Sizes(s, e);
    var n := Next(s, e);
    assert (s.lk[l] == Some(p) <==> Holds(s, p, l)) && (s.lk[l] == Some(e.p) <==> Holds(s, e.p, l));
    OwnLock(s, e, l);
    if p != e.p {
      Others(s, e, p);
    }
    hide Next, Enabled, Locks;
  }

  lemma LocksKept(s: State, e: Event)
    requires Locks(s) && Enabled(s, e)
    ensures Locks(Next(s, e))
  {
    Moves(s, e);
    OwnTable(s, e);
    var n := Next(s, e);
    hide Next, Enabled, Holds;
    forall p: nat, l: nat | p < |n.procs| && l < |n.lk|
      ensures n.lk[l] == Some(p) <==> Holds(n, p, l)
    {
      LockKept(s, e, p, l);
    }
    forall l: nat | l < |n.lk|
      ensures n.lk[l].Some? ==> n.lk[l].value < |n.procs|
    {
      LockKept(s, e, e.p, l);
    }
  }

  /** Only a process that holds the lock of its channel changes a count, and no other count than that. */
  lemma CountMoves(s: State, e: Event, c: nat)
    requires Wf(s) && Enabled(s, e) && c < |s.count|
    ensures var n, p := Next(s, e), e.p;
      && p < |n.procs| && c < |n.count|
      && (n.count[c] != s.count[c] ==>
        s.procs[p].chan == n.procs[p].chan == c && HoldsLk(s.procs[p].pc) && !Bound(n.procs[p]) && !Down(n.procs[p]))
      && (n.count[c] > s.count[c] ==> n.procs[p].pc.Given?)
      && (Bound(n.procs[p]) ==>
        n.procs[p].chan == s.procs[p].chan && (Bound(s.procs[p]) || s.count[s.procs[p].chan] == 0))
  {
  }

  lemma TestedKept(s: State, e: Event)
    requires Locks(s) && Tested(s) && Enabled(s, e)
    ensures Tested(Next(s, e))
  {
    Moves(s, e);
    var n := Next(s, e);
    forall p | 0 <= p < |n.procs| && Bound(n.procs[p])
      ensures n.count[n.procs[p].chan] == 0
    {
      CountMoves(s, e, n.procs[p].chan);
      hide Next, Enabled;
      var l := s.guard[n.procs[p].chan];
      assert Holds(s, e.p, l) ==> s.lk[l] == Some(e.p);
      assert p != e.p ==> (Holds(s, p, l) ==> s.lk[l] == Some(p));
    }
  }

  /** A process on its way to a wakeup comes closer, and passes only the process it looks at. */
  lemma WakerMoves(s: State, e: Event, p: nat, c: nat)
    requires Wf(s) && Enabled(s, e) && p < |s.procs| && WillWake(s.procs[e.p], p, c)
    ensures var n := Next(s, e);
      && p < |n.procs| && e.p < |n.procs|
      && (WillWake(n.procs[e.p], p, c) || (s.procs[e.p].pc == Waking(p, s.procs[e.p].pc.held) &&
        s.procs[e.p].chan == c && !Sleeping(n.procs[p], c)))
  {
  }

  /** What a pending wakeup becomes. */
  lemma PendingKept(s: State, e: Event, p: nat)
    requires Locks(s) && Enabled(s, e) && p < |s.procs| && Pending(s, p) && p < |Next(s, e).procs|
    requires Down(s.procs[p]) && Down(Next(s, e).procs[p])
    ensures Pending(Next(s, e), p)
  {
    var q: nat :| q < |s.procs| && WillWake(s.procs[q], p, s.procs[p].chan);
    var n := Next(s, e);
    Sizes(s, e);
    if e.p != p {
      Others(s, e, p);
    }
    DownFrom(s, e);
    if e.p == q {
      WakerMoves(s, e, p, s.procs[p].chan);
      hide Next, Enabled;
      assert HoldsTable(s.procs[p].pc) && HoldsTable(s.procs[q].pc) ==> p == q;
    } else {
      Others(s, e, q);
      hide Next, Enabled;
      assert WillWake(n.procs[q], p, s.procs[p].chan);
    }
  }

  /** A process lies down only after it found the count zero. */
  lemma DownFrom(s: State, e: Event)
    requires Wf(s) && Enabled(s, e)
    ensures var n, p := Next(s, e), e.p;
      && p < |n.procs|
      && (Down(n.procs[p]) ==> n.procs[p].chan == s.procs[p].chan && (Down(s.procs[p]) || Bound(s.procs[p])))
  {
  }

  lemma LiesDown(s: State, e: Event, p: nat)
    requires Tested(s) && Enabled(s, e) && p < |s.procs| && p < |Next(s, e).procs| && Down(Next(s, e).procs[p])
    ensures var n, c := Next(s, e), s.procs[p].chan;
      && n.procs[p].chan == c < |n.count|
      && (Down(s.procs[p]) || n.count[c] == 0)
      && (n.count[c] > 0 && s.count[c] == 0 ==> WillWake(n.procs[e.p], p, c))
  {
    var n := Next(s, e);
    CountMoves(s, e, s.procs[p].chan);
    DownFrom(s, e);
    if e.p != p {
      Others(s, e, p);
    }
    hide Next, Enabled;
    assert Bound(s.procs[e.p]) ==> s.count[s.procs[e.p].chan] == 0;
  }

  lemma NoLostWakeupKept(s: State, e: Event)
    requires Inv(s) && Enabled(s, e)
    ensures NoLostWakeup(Next(s, e))
  {
    Moves(s, e);
    var n := Next(s, e);
    hide Locks, Tested;
    forall p | 0 <= p < |n.procs| && Down(n.procs[p]) && n.count[n.procs[p].chan] > 0
      ensures Pending(n, p)
    {
      LiesDown(s, e, p);
      if s.count[s.procs[p].chan] > 0 {
        PendingKept(s, e, p);
      }
    }
  }

  lemma StepKeepsInv(s: State, e: Event)
    requires Inv(s) && Enabled(s, e)
    ensures Inv(Next(s, e))
  {
    hide Next, Enabled, NoLostWakeup, Tested;
    LocksKept(s, e);
    TestedKept(s, e);
    NoLostWakeupKept(s, e);
  }

  // ---- Runs --------------------------------------------------------------------

  predicate Init(s: State) {
    && Wf(s) && s.table.None?
    && (forall p :: 0 <= p < |s.procs| ==> s.procs[p].pc.Idle? && s.procs[p].owns == {})
    && (forall c :: 0 <= c < |s.pid| ==> s.pid[c].None?)
    && (forall l :: 0 <= l < |s.lk| ==> s.lk[l].None?)
  }

  predicate IsRun(s: State, events: seq<Event>)
    decreases |events|
  {
    Wf(s) && (events == [] || (Enabled(s, events[0]) && IsRun(Next(s, events[0]), events[1..])))
  }

  function Exec(s: State, events: seq<Event>): State
    requires IsRun(s, events)
    decreases |events|
  {
    if events == [] then s else Exec(Next(s, events[0]), events[1..])
  }

  lemma {:induction false} RunKeepsInv(s: State, events: seq<Event>)
    requires Inv(s) && IsRun(s, events)
    ensures Inv(Exec(s, events))
    decreases |events|
  {
    hide Next, Enabled, Locks, NoLostWakeup, Tested;
    if events != [] {
      StepKeepsInv(s, events[0]);
      RunKeepsInv(Next(s, events[0]), events[1..]);
    }
  }

  /** In every run of any number of processes and channels, a process asleep on a channel whose count is
      positive has a wakeup on that channel still to come. */
  lemma WakeupNeverLost(s: State, events: seq<Event>, p: nat)
    requires Init(s) && IsRun(s, events)
    requires var n := Exec(s, events); Wf(n) && p < |n.procs| && n.procs[p].pc.Asleep? && n.count[n.procs[p].chan] > 0
    ensures Pending(Exec(s, events), p)
  {
    RunKeepsInv(s, events);
    assert Down(Exec(s, events).procs[p]);
  }

  /** Some process can take a step of its own. */
  ghost predicate CanMove(s: State)
    requires Wf(s)
  {
    exists p :: Enabled(s, Step(p))
  }

  /** Whoever holds a spinlock can move: the table's lock is always taken last. */
  lemma HolderMoves(s: State, l: nat)
    requires Locks(s) && l < |s.lk|
    ensures s.table.Some? || s.lk[l].Some? ==> CanMove(s)
  {
    if s.table.Some? {
      assert HoldsTable(s.procs[s.table.value].pc);
      assert Enabled(s, Step(s.table.value));
    } else if s.lk[l].Some? {
      assert Holds(s, s.lk[l].value, l);
      assert Enabled(s, Step(s.lk[l].value));
    }
  }

  /** Nobody can move only when nobody waits for a spinlock and every sleeper's condition is false. */
  lemma StuckMeansDone(s: State, p: nat)
    requires Inv(s) && !CanMove(s) && p < |s.procs|
    ensures s.procs[p].pc.Idle? || (s.procs[p].pc.Asleep? && s.count[s.procs[p].chan] == 0)
  {
    hide Tested;
    AtRest(s, p);
    if s.procs[p].pc.Asleep? && s.count[s.procs[p].chan] > 0 {
      assert Down(s.procs[p]);
      var q :| 0 <= q < |s.procs| && WillWake(s.procs[q], p, s.procs[p].chan);
      AtRest(s, q);
      assert false;
    }
  }

  lemma AtRest(s: State, p: nat)
    requires Locks(s) && !CanMove(s) && p < |s.procs|
    ensures s.procs[p].pc.Idle? || s.procs[p].pc.Asleep?
  {
    assert !Enabled(s, Step(p));
    HolderMoves(s, s.guard[s.procs[p].chan]);
  }

  lemma RunNeverDeadlocks(s: State, events: seq<Event>, p: nat)
    requires Init(s) && IsRun(s, events)
    requires Wf(Exec(s, events)) && !CanMove(Exec(s, events)) && p < |Exec(s, events).procs|
    ensures var n := Exec(s, events); n.procs[p].pc.Idle? || (n.procs[p].pc.Asleep? && n.count[n.procs[p].chan] == 0)
  {
    RunKeepsInv(s, events);
    StuckMeansDone(Exec(s, events), p);
  }

  // ---- Taking one and giving one --------------------------------------------------------------------

  /** On the way from the start of acquiresleep or piperead's wait to its return. */
  predicate Acquiring(pc: Pc) {
    match pc
    case WantLk | Testing | WantTable | Releasing | Dozing | Asleep | Runnable | Rising | Taking => true
    case _ => false
  }

  /** From a to b process p took one from c: it found the count positive and lowered it, in its own name. */
  predicate Took(a: State, b: State, p: nat, c: nat) {
    && Wf(a) && Wf(b) && p < |a.procs| && p < |b.procs| && c < |a.count| && c < |b.count|
    && a.procs[p].pc.Testing? && a.procs[p].chan == c && a.count[c] > 0
    && b.procs[p].pc.Taking? && b.procs[p].chan == c && b.count[c] == a.count[c] - 1 && b.pid[c] == Some(p)
  }

  /** From a to b process p returned with one from c. */
  predicate Obtained(a: State, b: State, p: nat, c: nat) {
    && p < |a.procs| && p < |b.procs|
    && a.procs[p].pc.Taking? && a.procs[p].chan == c && b.procs[p].pc.Idle? && c in b.procs[p].owns
  }

  /** A process that wants one goes on wanting it until it takes one and returns with it; nothing else
      brings it back. */
  lemma AcquirerSteps(s: State, e: Event, p: nat)
    requires Wf(s) && Enabled(s, e) && p < |s.procs| && Acquiring(s.procs[p].pc)
    ensures var n, c := Next(s, e), s.procs[p].chan;
      && Wf(n) && p < |n.procs| && n.procs[p].chan == c
      && (if Acquiring(n.procs[p].pc) then n.procs[p].owns == s.procs[p].owns
          else e == Step(p) && Obtained(s, n, p, c) && n.procs[p].owns == s.procs[p].owns + {c})
      && (n.procs[p].pc.Taking? && !s.procs[p].pc.Taking? ==> e == Step(p) && Took(s, n, p, c))
      && (e == Step(p) ==> n.procs[p].pc != s.procs[p].pc)
  {
    Moves(s, e);
    if p != e.p {
      Others(s, e, p);
    }
  }

  /** What a process sets out to do, and what a kill does to a sleeper. */
  lemma SetsOut(s: State, e: Event)
    requires Wf(s) && Enabled(s, e)
    ensures var n, p := Next(s, e), e.p;
      && p < |n.procs|
      && (e.Start? ==> n.procs[p] == Proc(WantLk, e.c, s.procs[p].owns))
      && (e.Produce? ==> n.procs[p] == Proc(WantGive, e.c, s.procs[p].owns))
      && (e.Finish? ==> n.procs[p] == Proc(WantGive, e.c, s.procs[p].owns - {e.c}))
      && (e.Keep? ==> n.procs[p].pc.Idle? && n.procs[p].owns == s.procs[p].owns - {e.c})
      && (e.Kill? ==> Acquiring(n.procs[p].pc) && !Down(n.procs[p]))
  {
  }

  /** The state after k events of a run. */
  function At(s: State, events: seq<Event>, k: nat): State
    requires IsRun(s, events) && k <= |events|
    decreases |events|
  {
    if k == 0 then s else At(Next(s, events[0]), events[1..], k - 1)
  }

  /** After k events process p still wants one from c. */
  predicate Wants(s: State, p: nat, c: nat) {
    p < |s.procs| && Acquiring(s.procs[p].pc) && s.procs[p].chan == c
  }

  /** In every run a process that starts to acquire and is idle later on has taken one from the channel at some
      step i, returned with it at a later step k, and was on its way all the time until then. */
  lemma {:induction false} AcquireTakesOne(s: State, events: seq<Event>, p: nat, c: nat) returns (i: nat, k: nat)
    requires IsRun(s, events) && Wants(s, p, c) && p < |Exec(s, events).procs| && Exec(s, events).procs[p].pc.Idle?
    ensures k < |events| && events[k] == Step(p) && Obtained(At(s, events, k), At(s, events, k + 1), p, c)
    ensures forall j: nat :: j <= k ==> Wants(At(s, events, j), p, c)
    ensures !s.procs[p].pc.Taking? ==>
      i < k && events[i] == Step(p) && Took(At(s, events, i), At(s, events, i + 1), p, c)
    decreases |events|
  {
    var e, n, rest := events[0], Next(s, events[0]), events[1..];
    AcquirerSteps(s, e, p);
    hide Next, Enabled, Took, Obtained, Wf;
    i, k := 0, 0;
    if Acquiring(n.procs[p].pc) {
      i, k := AcquireTakesOne(n, rest, p, c);
      forall j: nat | j <= k + 1
        ensures Wants(At(s, events, j), p, c)
      {
        assert j > 0 ==> At(s, events, j) == At(n, rest, j - 1);
      }
      i, k := if n.procs[p].pc.Taking? then 0 else i + 1, k + 1;
    }
  }

  /** On the way from adding one to the end of the wakeup. */
  predicate Adding(pc: Pc) {
    pc.WantGive? || pc.Giving? || pc.Given? || pc.WantWake? || pc.Waking? || pc.Leaving?
  }

  /** Before it has added one. */
  predicate ToAdd(pc: Pc) {
    pc.WantGive? || pc.Giving?
  }

  /** From a to b process p added one to c. */
  predicate Gave(a: State, b: State, p: nat, c: nat) {
    && Wf(a) && Wf(b) && p < |a.procs| && p < |b.procs| && c < |a.count| && c < |b.count|
    && a.procs[p].pc.Giving? && a.procs[p].chan == c && HoldsLk(a.procs[p].pc)
    && b.procs[p].pc.Given? && b.procs[p].chan == c && b.count[c] == a.count[c] + 1
  }

  /** From a to b process p, in wakeup on c with the table locked, looked at process q, which then does not
      sleep on c. */
  predicate Looked(a: State, b: State, p: nat, q: nat, c: nat) {
    && p < |a.procs| && p < |b.procs| && q < |a.procs| && q < |b.procs|
    && a.procs[p].pc.Waking? && a.procs[p].pc.k == q && a.procs[p].chan == c && HoldsTable(a.procs[p].pc)
    && (Sleeping(a.procs[q], c) ==> b.procs[q] == a.procs[q].(pc := Runnable)) && !Sleeping(b.procs[q], c)
  }

  /** The wakeup of p has not passed q. */
  predicate Ahead(pc: Pc, q: nat) {
    ToAdd(pc) || pc.Given? || pc.WantWake? || (pc.Waking? && pc.k <= q)
  }

  /** How many more steps a process that adds one has to take, of m processes to look at. */
  function ToGo(pc: Pc, m: nat): int {
    match pc
    case WantGive => m + 6
    case Giving => m + 5
    case Given => m + 4
    case WantWake(_) => m + 3
    case Waking(k, _) => if k <= m then m - k + 2 else 2
    case Leaving => 1
    case _ => 0
  }

  /** A process that adds one comes nearer to its return by every step it takes, and by no step of another is it
      set back. */
  lemma GiverComesNearer(s: State, e: Event, p: nat)
    requires Wf(s) && Enabled(s, e) && p < |s.procs| && Adding(s.procs[p].pc)
    requires s.procs[p].pc.Waking? ==> s.procs[p].pc.k <= |s.procs|
    ensures var n, m := Next(s, e), |s.procs|;
      && p < |n.procs|
      && (if e.p == p then 0 <= ToGo(n.procs[p].pc, m) < ToGo(s.procs[p].pc, m) else n.procs[p] == s.procs[p])
      && (n.procs[p].pc.Waking? ==> n.procs[p].pc.k <= m)
  {
    if p != e.p {
      Moves(s, e);
    }
  }

  lemma GiverSteps(s: State, e: Event, p: nat, q: nat)
    requires Wf(s) && Enabled(s, e) && p < |s.procs| && q < |s.procs| && Adding(s.procs[p].pc)
    ensures var n, c := Next(s, e), s.procs[p].chan;
      && Wf(n) && |n.procs| == |s.procs|
      && (Adding(n.procs[p].pc) ==> n.procs[p].chan == c)
      && (!Adding(n.procs[p].pc) ==> n.procs[p].pc.Idle? && !ToAdd(s.procs[p].pc))
      && (ToAdd(s.procs[p].pc) && !ToAdd(n.procs[p].pc) ==> e == Step(p) && Gave(s, n, p, c))
      && (Ahead(s.procs[p].pc, q) && !Ahead(n.procs[p].pc, q) ==> e == Step(p) && Looked(s, n, p, q, c))
  {
    Moves(s, e);
    if p != e.p {
      Others(s, e, p);
    }
  }

  /** In every run a process that starts to give one and is idle later on has added one to the count at some
      step i, and afterwards its wakeup has looked at every process q, at a step j. */
  lemma {:induction false} GiveWakesAll(s: State, events: seq<Event>, p: nat, c: nat, q: nat) returns (i: nat, j: nat)
    requires IsRun(s, events) && p < |s.procs| && q < |s.procs|
    requires Adding(s.procs[p].pc) && Ahead(s.procs[p].pc, q) && s.procs[p].chan == c
    requires p < |Exec(s, events).procs| && Exec(s, events).procs[p].pc.Idle?
    ensures j < |events| && events[j] == Step(p) && Looked(At(s, events, j), At(s, events, j + 1), p, q, c)
    ensures ToAdd(s.procs[p].pc) ==>
      i < j && events[i] == Step(p) && Gave(At(s, events, i), At(s, events, i + 1), p, c)
    decreases |events|
  {
    var e, n, rest := events[0], Next(s, events[0]), events[1..];
    GiverSteps(s, e, p, q);
    hide Next, Enabled, Gave, Looked, Wf;
    i, j := 0, 0;
    if Ahead(n.procs[p].pc, q) {
      i, j := GiveWakesAll(n, rest, p, c, q);
      i, j := if ToAdd(n.procs[p].pc) then i + 1 else 0, j + 1;
    }
  }

  // ---- Sleep locks --------------------------------------------------------------------

  /** Working on c, between taking one and having given it back. */
  predicate Passing(proc: Proc, c: nat) {
    proc.chan == c && (proc.pc.Taking? || proc.pc.WantGive? || proc.pc.Giving?)
  }

  /** A process from taking the sleep lock c until it has given it back. */
  predicate Owning(proc: Proc, c: nat) {
    c in proc.owns || Passing(proc, c)
  }

  /** Channel c is used as a sleep lock: only an owner releases it, and every owner does. */
  predicate LockEvent(e: Event, c: nat) {
    (e.Produce? || e.Keep?) ==> e.c != c
  }

  /** The lock is free and nobody owns it, or taken by exactly the process it names. */
  ghost predicate Exclusive(s: State, c: nat) {
    && Wf(s) && c < |s.count|
    && (forall q :: 0 <= q < |s.procs| && Passing(s.procs[q], c) ==> c !in s.procs[q].owns)
    && if s.pid[c].None? then s.count[c] == 1 && forall q :: 0 <= q < |s.procs| ==> !Owning(s.procs[q], c)
       else s.count[c] == 0 && s.pid[c].value < |s.procs| && forall q: nat :: q < |s.procs| ==>
         (Owning(s.procs[q], c) <==> q == s.pid[c].value)
  }

  /** The moving process takes lock c, gives it back, or leaves it as it is. */
  predicate OwnerMoved(s: State, n: State, p: nat, c: nat)
    requires c < |s.count| && c < |s.pid| && c < |n.count| && c < |n.pid| && p < |s.procs| && p < |n.procs|
  {
    && (Passing(n.procs[p], c) ==> c !in n.procs[p].owns)
    && if Owning(n.procs[p], c) == Owning(s.procs[p], c) then n.pid[c] == s.pid[c] && n.count[c] == s.count[c]
       else if Owning(n.procs[p], c) then s.count[c] > 0 && n.count[c] == s.count[c] - 1 && n.pid[c] == Some(p)
       else n.count[c] == s.count[c] + 1 && n.pid[c] == None
  }

  lemma OwnerSteps(s: State, p: nat, c: nat)
    requires Wf(s) && Enabled(s, Step(p)) && c < |s.count|
    requires Passing(s.procs[p], c) ==> c !in s.procs[p].owns
    requires Owning(s.procs[p], c) ==> s.count[c] == 0
    ensures var n := StepNext(s, p); c < |n.count| && c < |n.pid| && p < |n.procs| && OwnerMoved(s, n, p, c)
  {
    if s.procs[p].pc.Waking? {
      OwnerWakes(s, p, c);
      hide StepNext, Owning, Passing;
    } else {
      hide Owning;
      assert Owning(s.procs[p], c) <==> c in s.procs[p].owns || Passing(s.procs[p], c);
    }
  }

  /** A wakeup changes no count and nobody's ownership. */
  lemma OwnerWakes(s: State, p: nat, c: nat)
    requires Wf(s) && Enabled(s, Step(p)) && c < |s.count| && s.procs[p].pc.Waking?
    ensures var n := StepNext(s, p);
      && n.count == s.count && n.pid == s.pid && p < |n.procs| && n.procs[p].owns == s.procs[p].owns
      && !Passing(n.procs[p], c) && !Passing(s.procs[p], c) && OwnerMoved(s, n, p, c)
  {
  }

  lemma OwnerMoves(s: State, e: Event, c: nat)
    requires Wf(s) && Enabled(s, e) && LockEvent(e, c) && c < |s.count|
    requires Passing(s.procs[e.p], c) ==> c !in s.procs[e.p].owns
    requires Owning(s.procs[e.p], c) ==> s.count[c] == 0
    ensures var n := Next(s, e); c < |n.count| && c < |n.pid| && e.p < |n.procs| && OwnerMoved(s, n, e.p, c)
  {
    if e.Step? {
      OwnerSteps(s, e.p, c);
    }
    hide StepNext;
  }

  lemma ExclusiveKept(s: State, e: Event, c: nat)
    requires Exclusive(s, c) && Enabled(s, e) && LockEvent(e, c)
    ensures Exclusive(Next(s, e), c)
  {
    Moves(s, e);
    OwnerMoves(s, e, c);
    hide Next, Enabled;
    assert forall q :: 0 <= q < |s.procs| && q != e.p ==> Owning(Next(s, e).procs[q], c) == Owning(s.procs[q], c);
  }

  lemma {:induction false} RunExclusive(s: State, events: seq<Event>, c: nat)
    requires Exclusive(s, c) && IsRun(s, events) && forall i :: 0 <= i < |events| ==> LockEvent(events[i], c)
    ensures Exclusive(Exec(s, events), c)
    decreases |events|
  {
    hide Next, Enabled, Exclusive;
    if events != [] {
      ExclusiveKept(s, events[0], c);
      RunExclusive(Next(s, events[0]), events[1..], c);
    }
  }

  /** holdingsleep: locked, by this process. */
  predicate HoldingSleep(s: State, p: nat, c: nat)
    requires Wf(s) && c < |s.count|
  {
    s.count[c] == 0 && s.pid[c] == Some(p)
  }

  /** If p waits for lock c and e brings it back, then it owns the lock. */
  predicate ReturnsWithLock(s: State, e: Event, p: nat, c: nat)
    requires Wf(s) && Enabled(s, e)
  {
    var n := Next(s, e);
    Wants(s, p, c) && p < |n.procs| && !Wants(n, p, c) ==>
      Wf(n) && c < |n.count| && n.procs[p].pc.Idle? && c in n.procs[p].owns && HoldingSleep(n, p, c)
  }

  lemma LockObtained(s: State, e: Event, p: nat, c: nat)
    requires Exclusive(s, c) && Enabled(s, e)
    ensures ReturnsWithLock(s, e, p, c)
  {
    if Wants(s, p, c) {
      AcquirerSteps(s, e, p);
      if e == Step(p) {
        ExclusiveKept(s, e, c);
      }
      hide Next, Enabled;
      assert p < |Next(s, e).procs| && c in Next(s, e).procs[p].owns ==> Owning(Next(s, e).procs[p], c);
    }
  }

  /** In every run in which c is used as a sleep lock, whatever happens on other channels, at most one
      process owns it, holdingsleep tells who, whoever sleeps on the lock while it is free has a wakeup
      still to come, and if nobody can move and nobody owns the lock then nobody waits for it. A process on its way
      through acquiresleep comes back, by whatever step, only with the lock. */
  lemma SleepLockWorks(s: State, events: seq<Event>, c: nat)
    requires Init(s) && c < |s.count| && s.count[c] == 1 && IsRun(s, events)
    requires forall i :: 0 <= i < |events| ==> LockEvent(events[i], c)
    ensures var n := Exec(s, events);
      && Wf(n) && c < |n.count|
      && (forall p, q :: 0 <= p < q < |n.procs| ==> !(Owning(n.procs[p], c) && Owning(n.procs[q], c)))
      && (forall p: nat :: p < |n.procs| ==> (HoldingSleep(n, p, c) <==> Owning(n.procs[p], c)))
      && (forall p: nat :: p < |n.procs| && Sleeping(n.procs[p], c) && n.count[c] > 0 ==> Pending(n, p))
      && (!CanMove(n) && (forall p :: 0 <= p < |n.procs| ==> !Owning(n.procs[p], c)) ==>
          forall p :: 0 <= p < |n.procs| ==> n.procs[p].pc.Idle? || (n.procs[p].pc.Asleep? && n.procs[p].chan != c))
    ensures forall e, p :: Enabled(Exec(s, events), e) ==> ReturnsWithLock(Exec(s, events), e, p, c)
  {
    RunKeepsInv(s, events);
    RunExclusive(s, events, c);
    var n := Exec(s, events);
    forall p: nat | p < |n.procs| && Sleeping(n.procs[p], c) && n.count[c] > 0
      ensures Pending(n, p)
    {
      assert Down(n.procs[p]);
    }
    if !CanMove(n) {
      forall p: nat | p < |n.procs|
        ensures n.procs[p].pc.Idle? || (n.procs[p].pc.Asleep? && n.count[n.procs[p].chan] == 0)
      {
        StuckMeansDone(n, p);
      }
    }
    forall e, p | Enabled(n, e)
      ensures ReturnsWithLock(n, e, p, c)
    {
      LockObtained(n, e, p, c);
    }
  }
}
