/** The process table: fork, exit, wait and kill as steps of any number of processes, interleaved at
    the points where the table's lock is taken. */
module ProcSpec {
  import opened Wrappers

  /** A slot's state. Ready stands for both runnable and running. */
  datatype PState = Unused | Embryo | Ready | Sleeping | Zombie

  /** What a process sleeps on: a process (in wait), or something else. */
  datatype Chan = OfProc(p: nat) | Other(n: nat)

  datatype Proc = Proc(state: PState, pid: nat, parent: Option<nat>, chan: Option<Chan>, killed: bool)

  predicate Live(p: Proc) {
    p.state.Ready? || p.state.Sleeping?
  }

  // ---- What the table scans do --------------------------------------------------------------------

  function WokenOne(p: Proc, chan: Chan): Proc {
    if p.state.Sleeping? && p.chan == Some(chan) then p.(state := Ready, chan := None) else p
  }

  /** wakeup1. */
  function Woken(procs: seq<Proc>, chan: Chan): (r: seq<Proc>)
    ensures |r| == |procs|
  {
    seq(|procs|, i requires 0 <= i < |procs| => WokenOne(procs[i], chan))
  }

  predicate ZombieChild(procs: seq<Proc>, me: nat, i: nat)
    requires i < |procs|
  {
    procs[i].parent == Some(me) && procs[i].state.Zombie?
  }

  /** One slot after me has exited: my parent's sleep in wait is over, my children are init's, and
      init's sleep is over if one of them is a zombie. */
  ghost function ExitedOne(procs: seq<Proc>, me: nat, init: nat, i: nat): Proc
    requires me < |procs| && i < |procs|
  {
    var a := if procs[me].parent.Some? then WokenOne(procs[i], OfProc(procs[me].parent.value)) else procs[i];
    var b := if exists j :: 0 <= j < |procs| && ZombieChild(procs, me, j) then WokenOne(a, OfProc(init)) else a;
    var c := if procs[i].parent == Some(me) then b.(parent := Some(init)) else b;
    if i == me then c.(state := Zombie) else c
  }

  ghost function Exited(procs: seq<Proc>, me: nat, init: nat): (r: seq<Proc>)
    requires me < |procs|
    ensures |r| == |procs|
  {
    seq(|procs|, i requires 0 <= i < |procs| => ExitedOne(procs, me, init, i))
  }

  /** The first slot that satisfies what a scan looks for. */
  function FirstUnused(procs: seq<Proc>, k: nat): (r: Option<nat>)
    requires k <= |procs|
    ensures r.Some? ==> k <= r.value < |procs| && procs[r.value].state.Unused?
    ensures r.None? ==> forall i :: k <= i < |procs| ==> !procs[i].state.Unused?
    decreases |procs| - k
  {
    if k == |procs| then None
    else if procs[k].state.Unused? then Some(k) else FirstUnused(procs, k + 1)
  }

  function FirstZombieChild(procs: seq<Proc>, me: nat, k: nat): (r: Option<nat>)
    requires k <= |procs|
    ensures r.Some? ==> k <= r.value < |procs| && ZombieChild(procs, me, r.value)
    ensures r.None? ==> forall i :: k <= i < |procs| ==> !ZombieChild(procs, me, i)
    decreases |procs| - k
  {
    if k == |procs| then None
    else if ZombieChild(procs, me, k) then Some(k) else FirstZombieChild(procs, me, k + 1)
  }

  predicate HasChild(procs: seq<Proc>, me: nat) {
    exists i :: 0 <= i < |procs| && procs[i].parent == Some(me)
  }

  /** A slot given back by wait. */
  function Cleared(p: Proc): Proc {
    p.(state := Unused, pid := 0, parent := None, killed := false)
  }

  /** What one pass of wait comes to. */
  datatype Verdict = Reaps(child: nat) | Fails | Sleeps

  function WaitVerdict(procs: seq<Proc>, me: nat): Verdict
    requires me < |procs|
  {
    match FirstZombieChild(procs, me, 0)
    case Some(i) => Reaps(i)
    case None => if !HasChild(procs, me) || procs[me].killed then Fails else Sleeps
  }

  function Waited(procs: seq<Proc>, me: nat): (r: seq<Proc>)
    requires me < |procs|
    ensures |r| == |procs|
  {
    match WaitVerdict(procs, me)
    case Reaps(i) => procs[i := Cleared(procs[i])]
    case Fails => procs
    case Sleeps => procs[me := procs[me].(state := Sleeping, chan := Some(OfProc(me)))]
  }

  /** kill on slot i. */
  function KilledAt(procs: seq<Proc>, i: nat): (r: seq<Proc>)
    requires i < |procs|
    ensures |r| == |procs|
  {
    procs[i := if procs[i].state.Sleeping? then procs[i].(state := Ready, chan := None, killed := true)
      else procs[i].(killed := true)]
  }

  // ---- Steps --------------------------------------------------------------------

  /** What became of a pid: in slot i, reaped by the process with that pid, or a fork that failed. */
  datatype Fate = At(slot: nat) | Reaped(reaper: nat) | Failed

  /** `forking` maps a process inside fork to its child's slot. `fate` is bookkeeping for the proofs. */
  datatype State = State(procs: seq<Proc>, nextpid: nat, init: nat, forking: map<nat, nat>, fate: map<nat, Fate>)

  datatype Event =
    | Alloc(p: nat)
    | ForkFails(p: nat)
    | ForkAdopts(p: nat)
    | ForkDone(p: nat)
    | Exit(p: nat)
    | Wait(p: nat)
    | SleepOn(p: nat, n: nat)
    | Wakeup(n: nat)
    | Kill(p: nat)

  predicate Free(s: State, p: nat) {
    p < |s.procs| && s.procs[p].state.Ready? && p !in s.forking
  }

  predicate Forking(s: State, p: nat) {
    p < |s.procs| && p in s.forking && s.forking[p] < |s.procs|
  }

  predicate Enabled(s: State, e: Event) {
    match e
    case Alloc(p) => Free(s, p) && FirstUnused(s.procs, 0).Some?
    case ForkFails(p) => Forking(s, p) && s.procs[s.forking[p]].parent.None?
    case ForkAdopts(p) => Forking(s, p) && s.procs[s.forking[p]].parent.None?
    case ForkDone(p) => Forking(s, p) && s.procs[s.forking[p]].parent.Some?
    case Exit(p) => Free(s, p) && p != s.init
    case Wait(p) => Free(s, p)
    case SleepOn(p, _) => Free(s, p)
    case Wakeup(_) => true
    case Kill(p) => p < |s.procs|
  }

  ghost function Next(s: State, e: Event): State
    requires Enabled(s, e)
  {
    match e
    case Alloc(p) =>
      var i := FirstUnused(s.procs, 0).value;
      s.(procs := s.procs[i := s.procs[i].(state := Embryo, pid := s.nextpid)], nextpid := s.nextpid + 1,
         forking := s.forking[p := i], fate := s.fate[s.nextpid := At(i)])
    case ForkFails(p) =>
      var i := s.forking[p];
      s.(procs := s.procs[i := s.procs[i].(state := Unused)], forking := s.forking - {p},
        fate := s.fate[s.procs[i].pid := Failed])
    case ForkAdopts(p) =>
      var i := s.forking[p];
      s.(procs := s.procs[i := s.procs[i].(parent := Some(p))])
    case ForkDone(p) =>
      var i := s.forking[p];
      s.(procs := s.procs[i := s.procs[i].(state := Ready)], forking := s.forking - {p})
    case Exit(p) => s.(procs := Exited(s.procs, p, s.init))
    case Wait(p) =>
      s.(procs := Waited(s.procs, p),
         fate := match WaitVerdict(s.procs, p)
                 case Reaps(i) => s.fate[s.procs[i].pid := Reaped(s.procs[p].pid)]
                 case _ => s.fate)
    case SleepOn(p, n) => s.(procs := s.procs[p := s.procs[p].(state := Sleeping, chan := Some(Other(n)))])
    case Wakeup(n) => s.(procs := Woken(s.procs, Other(n)))
    case Kill(p) => s.(procs := KilledAt(s.procs, p))
  }

  /** The pid that a step's wait returns. */
  function Reaping(s: State, e: Event): Option<nat>
    requires Enabled(s, e)
  {
    if e.Wait? && WaitVerdict(s.procs, e.p).Reaps? then Some(s.procs[WaitVerdict(s.procs, e.p).child].pid) else None
  }

  // ---- The invariant --------------------------------------------------------------------

  /** A started process other than init has a live parent; a zombie has one to reap it. */
  ghost predicate ParentOk(s: State, i: nat)
    requires i < |s.procs|
  {
    var p := s.procs[i];
    match p.state
    case Unused => p.parent.None?
    case Embryo => p.parent.Some? ==> p.parent.value in s.forking && s.forking[p.parent.value] == i
    case _ =>
      if i == s.init then p.parent.None?
      else
        && p.parent.Some? && p.parent.value < |s.procs| && p.parent.value != i
        && Live(s.procs[p.parent.value])
  }

  /** Each pid is in one slot, and each used slot's pid is its own. */
  ghost predicate FateOk(s: State, i: nat)
    requires i < |s.procs|
  {
    !s.procs[i].state.Unused? ==> s.procs[i].pid in s.fate && s.fate[s.procs[i].pid] == At(i)
  }

  ghost predicate PidOk(s: State, x: nat)
    requires x in s.fate
  {
    s.fate[x].At? ==>
      s.fate[x].slot < |s.procs| && !s.procs[s.fate[x].slot].state.Unused? && s.procs[s.fate[x].slot].pid == x
  }

  /** Whoever sleeps in wait sleeps on itself, has a child, and has no zombie child. */
  ghost predicate WaitOk(s: State, i: nat)
    requires i < |s.procs|
  {
    s.procs[i].state.Sleeping? && s.procs[i].chan.Some? && s.procs[i].chan.value.OfProc? ==>
      && s.procs[i].chan.value.p == i && HasChild(s.procs, i)
      && forall j :: 0 <= j < |s.procs| ==> !ZombieChild(s.procs, i, j)
  }

  ghost predicate ForkOk(s: State, p: nat)
    requires p in s.forking
  {
    && p < |s.procs| && s.procs[p].state.Ready? && s.forking[p] < |s.procs| && s.procs[s.forking[p]].state.Embryo?
    && (s.procs[s.forking[p]].parent.Some? ==> s.procs[s.forking[p]].parent.value == p)
    && forall q :: q in s.forking && s.forking[q] == s.forking[p] ==> q == p
  }

  ghost predicate Inv(s: State) {
    && s.init < |s.procs| && Live(s.procs[s.init])
    && s.nextpid >= 1 && (forall x: nat :: x in s.fate <==> 1 <= x < s.nextpid)
    && (forall i: nat {:trigger ParentOk(s, i)} :: i < |s.procs| ==> ParentOk(s, i))
    && (forall i: nat {:trigger FateOk(s, i)} :: i < |s.procs| ==> FateOk(s, i))
    && (forall i: nat {:trigger WaitOk(s, i)} :: i < |s.procs| ==> WaitOk(s, i))
    && (forall x {:trigger PidOk(s, x)} :: x in s.fate ==> PidOk(s, x))
    && (forall p {:trigger ForkOk(s, p)} :: p in s.forking ==> ForkOk(s, p))
  }

  // ---- Every step keeps it --------------------------------------------------------------------

  /** A sleeper in wait is unaffected while no child goes away or becomes a zombie. */
  lemma WaitKept(s: State, n: State, i: nat)
    requires i < |s.procs| == |n.procs| && WaitOk(s, i)
    requires n.procs[i].state.Sleeping? ==> s.procs[i].state.Sleeping? && n.procs[i].chan == s.procs[i].chan
    requires forall j :: 0 <= j < |s.procs| ==> (s.procs[j].parent == Some(i) ==> n.procs[j].parent == Some(i))
    requires forall j :: 0 <= j < |s.procs| && ZombieChild(n.procs, i, j) ==> ZombieChild(s.procs, i, j)
    ensures WaitOk(n, i)
  {
  }

  /** Two used slots have different pids. */
  lemma PidsApart(s: State, i: nat, j: nat)
    requires i < |s.procs| && j < |s.procs| && i != j && FateOk(s, i) && FateOk(s, j)
    requires !s.procs[i].state.Unused? && !s.procs[j].state.Unused?
    ensures s.procs[i].pid != s.procs[j].pid
  {
  }

  lemma AllocKeepsInv(s: State, p: nat)
    requires Inv(s) && Enabled(s, Alloc(p))
    ensures Inv(Next(s, Alloc(p)))
  {
    var i, n := FirstUnused(s.procs, 0).value, Next(s, Alloc(p));
    hide FirstUnused;
    assert ParentOk(s, i);
    forall j: nat | j < |s.procs|
      ensures ParentOk(n, j) && FateOk(n, j) && WaitOk(n, j)
    {
      assert ParentOk(s, j) && FateOk(s, j);
      assert !s.procs[j].state.Unused? ==> PidOk(s, s.procs[j].pid);
      assert WaitOk(s, j);
      WaitKept(s, n, j);
    }
    forall x | x in n.fate
      ensures PidOk(n, x)
    {
      assert x != s.nextpid ==> PidOk(s, x);
    }
    forall q | q in n.forking
      ensures ForkOk(n, q)
    {
      forall r | r in s.forking
        ensures s.forking[r] != i
      {
        assert ForkOk(s, r);
      }
      assert q != p ==> ForkOk(s, q);
    }
  }

  lemma ForkKeepsInv(s: State, e: Event)
    requires Inv(s) && Enabled(s, e) && (e.ForkFails? || e.ForkAdopts? || e.ForkDone?)
    ensures Inv(Next(s, e))
  {
    var n, p := Next(s, e), e.p;
    var i := s.forking[p];
    assert ForkOk(s, p) && ParentOk(s, i) && FateOk(s, i);
    forall j: nat | j < |s.procs|
      ensures ParentOk(n, j) && FateOk(n, j) && WaitOk(n, j)
    {
      assert ParentOk(s, j) && FateOk(s, j) && WaitOk(s, j);
      if j != i && !s.procs[j].state.Unused? {
        PidsApart(s, i, j);
      }
      WaitKept(s, n, j);
    }
    forall x | x in n.fate
      ensures PidOk(n, x)
    {
      assert PidOk(s, x);
    }
    forall q | q in n.forking
      ensures ForkOk(n, q)
    {
      assert ForkOk(s, q);
    }
  }

  /** What exit does to one slot, in terms of the slot. */
  lemma ExitedSlot(s: State, p: nat, i: nat)
    requires Inv(s) && Enabled(s, Exit(p)) && i < |s.procs|
    ensures var a, b := s.procs[i], Next(s, Exit(p)).procs[i];
      && b.pid == a.pid && (b.state.Unused? <==> a.state.Unused?) && (b.state.Embryo? <==> a.state.Embryo?)
      && b.parent == (if a.parent == Some(p) then Some(s.init) else a.parent)
      && (i == p ==> b.state.Zombie?) && (i != p ==> (Live(b) <==> Live(a)) && (a.state.Ready? ==> b.state.Ready?))
      && (b.state.Sleeping? ==>
        i != p && a.state.Sleeping? && b.chan == a.chan && s.procs[p].parent.Some? &&
        b.chan != Some(OfProc(s.procs[p].parent.value)))
      && (b.state.Sleeping? && b.chan == Some(OfProc(s.init)) ==> forall j :: 0 <= j < |s.procs| ==>
        !ZombieChild(s.procs, p, j))
  {
    assert ParentOk(s, p);
  }

  lemma ExitWait(s: State, p: nat, i: nat)
    requires Inv(s) && Enabled(s, Exit(p)) && i < |s.procs|
    ensures WaitOk(Next(s, Exit(p)), i)
  {
    hide Exited;
    var n := Next(s, Exit(p));
    assert WaitOk(s, i);
    ExitedSlot(s, p, i);
    if n.procs[i].state.Sleeping? && n.procs[i].chan.Some? && n.procs[i].chan.value.OfProc? {
      var k :| 0 <= k < |s.procs| && s.procs[k].parent == Some(i);
      ExitedSlot(s, p, k);
      assert n.procs[k].parent == Some(i);
      forall j | 0 <= j < |n.procs|
        ensures !ZombieChild(n.procs, i, j)
      {
        ExitedSlot(s, p, j);
        assert ParentOk(s, p) && !ZombieChild(s.procs, i, j);
        assert i == s.init ==> !ZombieChild(s.procs, p, j);
      }
    }
  }

  lemma ExitKeepsInv(s: State, p: nat)
    requires Inv(s) && Enabled(s, Exit(p))
    ensures Inv(Next(s, Exit(p)))
  {
    hide Exited;
    var n := Next(s, Exit(p));
    ExitedSlot(s, p, s.init);
    forall j: nat | j < |s.procs|
      ensures ParentOk(n, j) && FateOk(n, j) && WaitOk(n, j)
    {
      assert ParentOk(s, j) && FateOk(s, j);
      ExitedSlot(s, p, j);
      if s.procs[j].parent.Some? && s.procs[j].parent.value < |s.procs| {
        ExitedSlot(s, p, s.procs[j].parent.value);
      }
      ExitWait(s, p, j);
    }
    forall x | x in n.fate
      ensures PidOk(n, x)
    {
      assert PidOk(s, x);
      if s.fate[x].At? {
        ExitedSlot(s, p, s.fate[x].slot);
      }
    }
    forall q | q in n.forking
      ensures ForkOk(n, q)
    {
      assert ForkOk(s, q);
      ExitedSlot(s, p, q);
      ExitedSlot(s, p, s.forking[q]);
    }
  }

  lemma ReapKeepsInv(s: State, p: nat)
    requires Inv(s) && Enabled(s, Wait(p)) && WaitVerdict(s.procs, p).Reaps?
    ensures Inv(Next(s, Wait(p)))
  {
    var n, i := Next(s, Wait(p)), WaitVerdict(s.procs, p).child;
    assert ParentOk(s, i) && FateOk(s, i) && ZombieChild(s.procs, p, i);
    hide WaitVerdict;
    forall j: nat | j < |s.procs|
      ensures ParentOk(n, j) && FateOk(n, j) && WaitOk(n, j)
    {
      assert ParentOk(s, j) && FateOk(s, j) && WaitOk(s, j);
      if j != i && !s.procs[j].state.Unused? {
        PidsApart(s, i, j);
      }
      if j != p {
        WaitKept(s, n, j);
      }
    }
    forall x | x in n.fate
      ensures PidOk(n, x)
    {
      assert PidOk(s, x);
    }
    forall q | q in n.forking
      ensures ForkOk(n, q)
    {
      assert ForkOk(s, q);
    }
  }

  /** A process that is not inside fork falls asleep; in wait, only with a child and no zombie child. */
  lemma DozeKeepsInv(s: State, n: State, p: nat, chan: Chan)
    requires Inv(s) && Free(s, p) && n == s.(procs := s.procs[p := s.procs[p].(state := Sleeping, chan := Some(chan))])
    requires chan.OfProc? ==> chan.p == p && HasChild(s.procs, p) && forall j :: 0 <= j < |s.procs| ==>
      !ZombieChild(s.procs, p, j)
    ensures Inv(n)
  {
    forall j: nat | j < |s.procs|
      ensures ParentOk(n, j) && FateOk(n, j) && WaitOk(n, j)
    {
      assert ParentOk(s, j) && FateOk(s, j) && WaitOk(s, j);
      if j != p {
        WaitKept(s, n, j);
      } else if chan.OfProc? {
        var k :| 0 <= k < |s.procs| && s.procs[k].parent == Some(p);
        assert n.procs[k].parent == Some(p);
        assert forall i :: 0 <= i < |s.procs| && ZombieChild(n.procs, p, i) ==> ZombieChild(s.procs, p, i);
      }
    }
    forall x | x in n.fate
      ensures PidOk(n, x)
    {
      assert PidOk(s, x);
    }
    forall q | q in n.forking
      ensures ForkOk(n, q)
    {
      assert ForkOk(s, q);
    }
  }

  /** Waking sleepers and marking processes as killed. */
  lemma RouseKeepsInv(s: State, n: State)
    requires Inv(s) && |n.procs| == |s.procs| && n == s.(procs := n.procs)
    requires forall i :: 0 <= i < |s.procs| ==> Roused(s.procs[i], n.procs[i])
    ensures Inv(n)
  {
    forall j: nat | j < |s.procs|
      ensures ParentOk(n, j) && FateOk(n, j) && WaitOk(n, j)
    {
      assert ParentOk(s, j) && FateOk(s, j) && WaitOk(s, j);
      WaitKept(s, n, j);
    }
    forall x | x in n.fate
      ensures PidOk(n, x)
    {
      assert PidOk(s, x);
    }
    forall q | q in n.forking
      ensures ForkOk(n, q)
    {
      assert ForkOk(s, q);
    }
  }

  predicate Roused(a: Proc, b: Proc) {
    && b.pid == a.pid && b.parent == a.parent
    && ((b.state == a.state && b.chan == a.chan) || (a.state.Sleeping? && b.state.Ready?))
  }

  lemma StepKeepsInv(s: State, e: Event)
    requires Inv(s) && Enabled(s, e)
    ensures Inv(Next(s, e))
  {
    hide Inv, FirstUnused, FirstZombieChild, Exited;
    match e
    case Alloc(p) => AllocKeepsInv(s, p);
    case Exit(p) => ExitKeepsInv(s, p);
    case Wait(p) =>
      match WaitVerdict(s.procs, p) {
        case Reaps(_) => ReapKeepsInv(s, p);
        case Fails => assert Next(s, e) == s;
        case Sleeps => DozeKeepsInv(s, Next(s, e), p, OfProc(p));
      }
    case SleepOn(p, k) => DozeKeepsInv(s, Next(s, e), p, Other(k));
    case Wakeup(_) => RouseKeepsInv(s, Next(s, e));
    case Kill(_) => RouseKeepsInv(s, Next(s, e));
    case _ => ForkKeepsInv(s, e);
  }

  // ---- What the calls come to --------------------------------------------------------------------

  /** A fork that nobody comes between: the first unused slot holds a runnable child of p with a new pid, and no
      other slot has changed. */
  lemma ForkMakesChild(s: State, p: nat, i: nat)
    requires Inv(s) && Free(s, p) && i < |s.procs| && s.procs[i].state.Unused?
    requires forall j :: 0 <= j < i ==> !s.procs[j].state.Unused?
    ensures IsRun(s, [Alloc(p), ForkAdopts(p), ForkDone(p)])
    ensures var n := Exec(s, [Alloc(p), ForkAdopts(p), ForkDone(p)]);
      && |n.procs| == |s.procs| && n.forking == s.forking && n.nextpid == s.nextpid + 1
      && n.procs[i].state.Ready? && n.procs[i].pid == s.nextpid && n.procs[i].parent == Some(p)
      && (forall j :: 0 <= j < |s.procs| && j != i ==> n.procs[j] == s.procs[j])
      && (forall j: nat :: j < |s.procs| && !s.procs[j].state.Unused? ==> s.procs[j].pid != s.nextpid)
  {
    FirstIs(s, i);
    hide FirstUnused;
    assert ParentOk(s, i);
    forall j: nat | j < |s.procs| && !s.procs[j].state.Unused?
      ensures s.procs[j].pid != s.nextpid
    {
      assert FateOk(s, j);
    }
    hide Inv;
    var a := Next(s, Alloc(p));
    RunOfTwo(a, ForkAdopts(p), ForkDone(p));
    assert [Alloc(p), ForkAdopts(p), ForkDone(p)][1..] == [ForkAdopts(p), ForkDone(p)];
  }

  /** And one that fails leaves the slot unused again. */
  lemma ForkUndone(s: State, p: nat, i: nat)
    requires Inv(s) && Free(s, p) && i < |s.procs| && s.procs[i].state.Unused?
    requires forall j :: 0 <= j < i ==> !s.procs[j].state.Unused?
    ensures IsRun(s, [Alloc(p), ForkFails(p)])
    ensures var n := Exec(s, [Alloc(p), ForkFails(p)]);
      && |n.procs| == |s.procs| && n.forking == s.forking && n.procs[i].state.Unused? && n.procs[i].parent.None?
      && (forall j :: 0 <= j < |s.procs| && j != i ==> n.procs[j] == s.procs[j])
  {
    FirstIs(s, i);
    assert ParentOk(s, i);
    RunOfTwo(s, Alloc(p), ForkFails(p));
  }

  lemma RunOfTwo(s: State, d: Event, e: Event)
    requires Enabled(s, d) && Enabled(Next(s, d), e)
    ensures IsRun(s, [d, e]) && Exec(s, [d, e]) == Next(Next(s, d), e)
  {
    assert [d, e][1..] == [e] && [e][1..] == [];
    assert IsRun(Next(s, d), [e]) && Exec(Next(s, d), [e]) == Exec(Next(Next(s, d), e), []);
  }

  lemma {:induction false} FirstIs(s: State, i: nat)
    requires i < |s.procs| && s.procs[i].state.Unused? && forall j :: 0 <= j < i ==> !s.procs[j].state.Unused?
    ensures FirstUnused(s.procs, 0) == Some(i)
  {
    UpToFirst(s.procs, 0, i);
  }

  lemma {:induction false} UpToFirst(procs: seq<Proc>, k: nat, i: nat)
    requires k <= i < |procs| && procs[i].state.Unused? && forall j :: 0 <= j < i ==> !procs[j].state.Unused?
    ensures FirstUnused(procs, k) == Some(i)
    decreases i - k
  {
    if k < i {
      UpToFirst(procs, k + 1, i);
    }
  }

  /** Whoever sleeps on a channel is asleep on it until a wakeup on that channel or a kill, and runs again after
      either; a kill is remembered, a wakeup of another channel is not noticed. */
  lemma SleepEnds(s: State, p: nat, k: nat, e: Event)
    requires Free(s, p) && (e.Wakeup? || e == Kill(p))
    ensures var a := Next(s, SleepOn(p, k));
      && |a.procs| == |s.procs| && a.procs[p].state.Sleeping? && a.procs[p].chan == Some(Other(k))
      && (forall j :: 0 <= j < |s.procs| && j != p ==> a.procs[j] == s.procs[j])
      && Enabled(a, e)
      && var n := Next(a, e);
      && |n.procs| == |s.procs|
      && (if e == Kill(p) || e == Wakeup(k) then n.procs[p].state.Ready? else n.procs[p] == a.procs[p])
      && n.procs[p].killed == (s.procs[p].killed || e.Kill?)
  {
  }

  lemma SameSize(s: State, e: Event)
    requires Inv(s) && Enabled(s, e)
    ensures |Next(s, e).procs| == |s.procs|
  {
  }

  // ---- Runs --------------------------------------------------------------------

  /** The table after userinit: init in slot 0, with pid 1. */
  ghost predicate Boot(s: State) {
    && |s.procs| >= 1 && s.init == 0 && s.nextpid == 2 && s.forking == map[] && s.fate == map[1 := At(0)]
    && s.procs[0].state.Ready? && s.procs[0].pid == 1 && s.procs[0].parent.None?
    && forall i :: 1 <= i < |s.procs| ==> s.procs[i].state.Unused? && s.procs[i].parent.None?
  }

  ghost predicate IsRun(s: State, events: seq<Event>)
    decreases |events|
  {
    events == [] || (Enabled(s, events[0]) && IsRun(Next(s, events[0]), events[1..]))
  }

  ghost function Exec(s: State, events: seq<Event>): State
    requires IsRun(s, events)
    decreases |events|
  {
    if events == [] then s else Exec(Next(s, events[0]), events[1..])
  }

  /** The pids that the run's waits return, in order. */
  ghost function Reapings(s: State, events: seq<Event>): seq<nat>
    requires IsRun(s, events)
    decreases |events|
  {
    if events == [] then []
    else (if Reaping(s, events[0]).Some? then [Reaping(s, events[0]).value]
      else []) + Reapings(Next(s, events[0]), events[1..])
  }

  lemma {:induction false} RunKeepsInv(s: State, events: seq<Event>)
    requires Inv(s) && IsRun(s, events)
    ensures Inv(Exec(s, events)) && |Exec(s, events).procs| == |s.procs|
    decreases |events|
  {
    if events != [] {
      StepKeepsInv(s, events[0]);
      SameSize(s, events[0]);
      RunKeepsInv(Next(s, events[0]), events[1..]);
    }
  }

  lemma BootInv(s: State)
    requires Boot(s)
    ensures Inv(s)
  {
  }

  /** In every run, every started process other than init has a live parent, so every zombie has
      someone to reap it; and whoever sleeps in wait has a child and no zombie child. */
  lemma EveryoneHasAParent(s: State, events: seq<Event>, i: nat)
    requires Boot(s) && IsRun(s, events) && i < |s.procs|
    ensures var n := Exec(s, events);
      && |n.procs| == |s.procs| && WaitOk(n, i)
      && (!n.procs[i].state.Unused? && !n.procs[i].state.Embryo? && i != n.init ==>
          n.procs[i].parent.Some? && n.procs[i].parent.value < |s.procs| && Live(n.procs[n.procs[i].parent.value]))
  {
    BootInv(s);
    RunKeepsInv(s, events);
    assert ParentOk(Exec(s, events), i) && WaitOk(Exec(s, events), i);
  }

  /** A reaped pid stays reaped and is never returned again. */
  lemma ReapedStays(s: State, e: Event, x: nat)
    requires Inv(s) && Enabled(s, e) && x in s.fate && s.fate[x].Reaped?
    ensures x in Next(s, e).fate && Next(s, e).fate[x] == s.fate[x] && Reaping(s, e) != Some(x)
  {
    assert PidOk(s, x);
    match e
    case ForkFails(p) => assert ForkOk(s, p) && FateOk(s, s.forking[p]);
    case Wait(p) =>
      if WaitVerdict(s.procs, p).Reaps? {
        assert FateOk(s, WaitVerdict(s.procs, p).child);
      }
    case _ =>
  }

  lemma ReapingReaps(s: State, e: Event)
    requires Inv(s) && Enabled(s, e) && Reaping(s, e).Some?
    ensures var x := Reaping(s, e).value;
      && x in s.fate && s.fate[x].At? && x in Next(s, e).fate && Next(s, e).fate[x] == Reaped(s.procs[e.p].pid)
      && s.fate[x].slot < |s.procs| && s.procs[s.fate[x].slot].state.Zombie? &&
        s.procs[s.fate[x].slot].parent == Some(e.p)
  {
    assert FateOk(s, WaitVerdict(s.procs, e.p).child);
  }

  lemma {:induction false} FateStays(s: State, events: seq<Event>, x: nat)
    requires Inv(s) && IsRun(s, events) && x in s.fate && s.fate[x].Reaped?
    ensures x in Exec(s, events).fate && Exec(s, events).fate[x] == s.fate[x] && x !in Reapings(s, events)
    decreases |events|
  {
    if events != [] {
      ReapedStays(s, events[0], x);
      StepKeepsInv(s, events[0]);
      FateStays(Next(s, events[0]), events[1..], x);
    }
  }

  /** In every run no two waits return the same process, and each returned process was reaped by the
      process that was then its parent. */
  lemma {:induction false} ReapedOnce(s: State, events: seq<Event>)
    requires Inv(s) && IsRun(s, events)
    ensures forall j, k :: 0 <= j < k < |Reapings(s, events)| ==> Reapings(s, events)[j] != Reapings(s, events)[k]
    ensures forall x :: x in Reapings(s, events) ==> x in Exec(s, events).fate && Exec(s, events).fate[x].Reaped?
    decreases |events|
  {
    if events != [] {
      var n, rest := Next(s, events[0]), Reapings(Next(s, events[0]), events[1..]);
      StepKeepsInv(s, events[0]);
      ReapedOnce(n, events[1..]);
      if Reaping(s, events[0]).Some? {
        var x := Reaping(s, events[0]).value;
        ReapingReaps(s, events[0]);
        FateStays(n, events[1..], x);
        assert Reapings(s, events) == [x] + rest;
      } else {
        assert Reapings(s, events) == rest;
      }
    }
  }
}
