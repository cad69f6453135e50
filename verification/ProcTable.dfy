/** The table scans of fork, exit, wait, wakeup and kill, in place. Each method is one stretch of code
    that runs with the table's lock held. */
module ProcTable {
  import opened Wrappers
  import opened ProcSpec

  class Ptable {
    var procs: seq<Proc>
    var nextpid: nat
    const init: nat

    constructor (nproc: nat, init: nat)
      ensures |procs| == nproc && this.init == init && nextpid == 1
      ensures forall i :: 0 <= i < nproc ==> procs[i] == Proc(Unused, 0, None, None, false)
    {
      procs := seq(nproc, _ => Proc(Unused, 0, None, None, false));
      nextpid := 1;
      this.init := init;
    }

    /** wakeup1: every process asleep on the channel is runnable, and no other changes. */
    method Wakeup1(chan: Chan)
      modifies `procs
      ensures procs == Woken(old(procs), chan)
      ensures forall i :: 0 <= i < |procs| ==>
        var was := old(procs)[i];
        procs[i] == if was.state.Sleeping? && was.chan == Some(chan) then was.(state := Ready, chan := None) else was
    {
      for i := 0 to |procs|
        invariant |procs| == |old(procs)|
        invariant forall j :: 0 <= j < |procs| ==>
          procs[j] == if j < i then WokenOne(old(procs)[j], chan) else old(procs)[j]
      {
        if procs[i].state.Sleeping? && procs[i].chan == Some(chan) {
          procs := procs[i := procs[i].(state := Ready, chan := None)];
        }
      }
    }

    /** allocproc: the first unused slot becomes an embryo with a new pid. */
    method Allocproc() returns (r: Option<nat>)
      modifies this
      ensures r == FirstUnused(old(procs), 0)
      ensures r.None? <==> forall i :: 0 <= i < |old(procs)| ==> !old(procs)[i].state.Unused?
      ensures r.Some? ==> r.value < |old(procs)| && old(procs)[r.value].state.Unused?
      ensures r.Some? ==> forall i :: 0 <= i < r.value ==> !old(procs)[i].state.Unused?
      ensures r.None? ==> procs == old(procs) && nextpid == old(nextpid)
      ensures r.Some? ==>
        procs == old(procs)[r.value := old(procs)[r.value].(state := Embryo, pid := old(nextpid))] &&
        nextpid == old(nextpid) + 1
    {
      for i := 0 to |procs|
        invariant procs == old(procs) && nextpid == old(nextpid)
        invariant FirstUnused(procs, 0) == FirstUnused(procs, i)
        invariant forall j :: 0 <= j < i ==> !procs[j].state.Unused?
      {
        if procs[i].state.Unused? {
          procs := procs[i := procs[i].(state := Embryo, pid := nextpid)];
          nextpid := nextpid + 1;
          return Some(i);
        }
      }
      r := None;
    }

    /** exit's scan: wakes the parent, hands the children to init, wakes init for zombies among them, and
        leaves the process a zombie. */
    method Exit(me: nat)
      requires me < |procs| && procs[me].state.Ready?
      modifies `procs
      ensures procs == Exited(old(procs), me, init)
      ensures |procs| == |old(procs)| && procs[me].state.Zombie?
      ensures forall i :: 0 <= i < |procs| ==>
        var was := old(procs)[i];
        && procs[i].pid == was.pid && procs[i].killed == was.killed
        && procs[i].parent == if was.parent == Some(me) then Some(init) else was.parent
      ensures forall i :: 0 <= i < |procs| && i != me ==>
        var was, orphans := old(procs)[i],
          exists j :: 0 <= j < |procs| && old(procs)[j].parent == Some(me) && old(procs)[j].state.Zombie?;
        var woken := was.state.Sleeping? && was.chan.Some? && was.chan.value.OfProc? &&
          (old(procs)[me].parent == Some(was.chan.value.p) || (orphans && was.chan.value.p == init));
        && procs[i].state == (if woken then Ready else was.state)
        && procs[i].chan == if woken then None else was.chan
    {
      hide Exited;
      ScanAndExit(me);
      ExitSeen(old(procs), procs, me, init);
    }

    /** The scan itself. */
    method ScanAndExit(me: nat)
      requires me < |procs| && procs[me].state.Ready?
      modifies `procs
      ensures procs == Exited(old(procs), me, init)
    {
      ghost var was := procs;
      if procs[me].parent.Some? {
        Wakeup1(OfProc(procs[me].parent.value));
      }
      ghost var woken := procs;
      ghost var passed := false;
      for i := 0 to |procs|
        invariant |procs| == |was|
        invariant passed <==> exists j :: 0 <= j < i && ZombieChild(was, me, j)
        invariant forall j :: 0 <= j < |procs| ==> procs[j] == Handed(woken[j], me, init, j < i, passed)
      {
        assert woken[i].parent == was[i].parent && (woken[i].state.Zombie? <==> was[i].state.Zombie?);
        if procs[i].parent == Some(me) {
          procs := procs[i := procs[i].(parent := Some(init))];
          if procs[i].state.Zombie? {
            assert ZombieChild(was, me, i);
            Wakeup1(OfProc(init));
            passed := true;
          }
        }
      }
      procs := procs[me := procs[me].(state := Zombie)];
      assert forall i :: 0 <= i < |procs| ==> procs[i] == ExitedOne(was, me, init, i);
    }

    /** wait's scan: reaps the first zombie child, or gives up, or falls asleep on the process itself. */
    method Wait(me: nat) returns (verdict: Verdict, pid: nat)
      requires me < |procs|
      modifies `procs
      ensures verdict == WaitVerdict(old(procs), me) && procs == Waited(old(procs), me)
      ensures verdict.Reaps? ==> pid == old(procs)[verdict.child].pid
      ensures verdict.Reaps? <==> exists i ::
        0 <= i < |old(procs)| && old(procs)[i].parent == Some(me) && old(procs)[i].state.Zombie?
      ensures verdict.Sleeps? <==>
        && (forall i :: 0 <= i < |old(procs)| && old(procs)[i].parent == Some(me) ==> !old(procs)[i].state.Zombie?)
        && (exists i :: 0 <= i < |old(procs)| && old(procs)[i].parent == Some(me)) && !old(procs)[me].killed
      ensures verdict.Fails? <==>
        && (forall i :: 0 <= i < |old(procs)| && old(procs)[i].parent == Some(me) ==> !old(procs)[i].state.Zombie?)
        && ((forall i :: 0 <= i < |old(procs)| ==> old(procs)[i].parent != Some(me)) || old(procs)[me].killed)
      ensures verdict.Reaps? ==>
        var i := verdict.child;
        && i < |old(procs)| && old(procs)[i].parent == Some(me) && old(procs)[i].state.Zombie?
        && (forall j :: 0 <= j < i && old(procs)[j].parent == Some(me) ==> !old(procs)[j].state.Zombie?)
        && procs == old(procs)[i := Proc(Unused, 0, None, old(procs)[i].chan, false)]
      ensures verdict.Sleeps? ==>
        procs == old(procs)[me := old(procs)[me].(state := Sleeping, chan := Some(OfProc(me)))]
      ensures verdict.Fails? ==> procs == old(procs)
    {
      var havekids := false;
      pid := 0;
      for i := 0 to |procs|
        invariant procs == old(procs)
        invariant havekids <==> exists j :: 0 <= j < i && procs[j].parent == Some(me)
        invariant FirstZombieChild(procs, me, 0) == FirstZombieChild(procs, me, i)
        invariant forall j :: 0 <= j < i && procs[j].parent == Some(me) ==> !procs[j].state.Zombie?
      {
        if procs[i].parent == Some(me) {
          havekids := true;
          if procs[i].state.Zombie? {
            pid := procs[i].pid;
            procs := procs[i := procs[i].(state := Unused, pid := 0, parent := None, killed := false)];
            return Reaps(i), pid;
          }
        }
      }
      if !havekids || procs[me].killed {
        return Fails, 0;
      }
      procs := procs[me := procs[me].(state := Sleeping, chan := Some(OfProc(me)))];
      verdict := Sleeps;
    }

    /** kill: marks the first process with the pid and ends its sleep. */
    method Kill(pid: nat) returns (found: bool)
      modifies `procs
      ensures !found ==> procs == old(procs) && forall i :: 0 <= i < |procs| ==> procs[i].pid != pid
      ensures found ==>
        exists i: nat :: i < |old(procs)| && old(procs)[i].pid == pid && procs == KilledAt(old(procs), i)
      ensures |procs| == |old(procs)|
      ensures forall i :: 0 <= i < |procs| ==>
        var was := old(procs)[i];
        var first := was.pid == pid && forall j :: 0 <= j < i ==> old(procs)[j].pid != pid;
        && procs[i].pid == was.pid && procs[i].parent == was.parent
        && procs[i].killed == (was.killed || first)
        && procs[i].state == (if first && was.state.Sleeping? then Ready else was.state)
        && procs[i].chan == if first && was.state.Sleeping? then None else was.chan
    {
      for i := 0 to |procs|
        invariant procs == old(procs)
        invariant forall j :: 0 <= j < i ==> procs[j].pid != pid
      {
        if procs[i].pid == pid {
          procs := procs[i := procs[i].(killed := true)];
          if procs[i].state.Sleeping? {
            procs := procs[i := procs[i].(state := Ready, chan := None)];
          }
          assert procs == KilledAt(old(procs), i);
          return true;
        }
      }
      found := false;
    }
  }

  lemma ExitSeen(procs: seq<Proc>, n: seq<Proc>, me: nat, init: nat)
    requires me < |procs| && n == Exited(procs, me, init)
    ensures |n| == |procs| && n[me].state.Zombie?
    ensures forall i :: 0 <= i < |n| ==>
      var was := procs[i];
      && n[i].pid == was.pid && n[i].killed == was.killed
      && n[i].parent == if was.parent == Some(me) then Some(init) else was.parent
    ensures forall i :: 0 <= i < |n| && i != me ==>
      var was, orphans := procs[i],
        exists j :: 0 <= j < |n| && procs[j].parent == Some(me) && procs[j].state.Zombie?;
      var woken := was.state.Sleeping? && was.chan.Some? && was.chan.value.OfProc? &&
        (procs[me].parent == Some(was.chan.value.p) || (orphans && was.chan.value.p == init));
      && n[i].state == (if woken then Ready else was.state)
      && n[i].chan == if woken then None else was.chan
  {
    assert forall j: nat :: j < |n| ==>
      (ZombieChild(procs, me, j) <==> procs[j].parent == Some(me) && procs[j].state.Zombie?);
    assert forall i :: 0 <= i < |n| ==> n[i] == ExitedOne(procs, me, init, i);
  }

  /** A slot during exit's scan: handed over if the scan has passed it, and woken if it is init asleep and
      a zombie has been passed. */
  function Handed(p: Proc, me: nat, init: nat, done: bool, passed: bool): Proc {
    var q := if passed then WokenOne(p, OfProc(init)) else p;
    if done && p.parent == Some(me) then q.(parent := Some(init)) else q
  }
}
