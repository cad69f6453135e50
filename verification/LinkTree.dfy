/** The tree of directories: which ones lead down from the root, and what every run of link, unlink and
    create keeps of them. */
module LinkTree {
  import opened Wrappers
  import opened LinkSpec

  // ---- Reaching a directory --------------------------------------------------------------------

  /** n entries, none of them a dot, lead from the root down to directory d. */
  ghost predicate Reach(s: State, d: nat, n: nat)
    decreases n
  {
    IsDir(s, d) && if n == 0 then d == ROOT else exists p: nat :: Reach(s, p, n - 1) && NamedIn(s, p, d)
  }

  ghost predicate Reachable(s: State, d: nat) {
    exists n: nat :: Reach(s, d, n)
  }

  /** Ranks that rise from a linked directory's parent to the directory. */
  ghost predicate Ranked(s: State, rank: map<nat, nat>) {
    forall d :: Linked(s, d) ==> RankOk(s, rank, d)
  }

  predicate RankOk(s: State, rank: map<nat, nat>, d: nat)
    requires d in s.nodes
  {
    && d in rank && |s.nodes[d].entries| >= 2
    && (d != ROOT ==> var p := s.nodes[d].entries[1].inum; p in rank && rank[p] < rank[d])
  }

  /** Counts and entries are consistent, and no linked directory is above itself. */
  ghost predicate Sound(s: State) {
    Inv(s) && exists rank: map<nat, nat> :: Ranked(s, rank)
  }

  lemma {:induction false} LinkedReach(s: State, rank: map<nat, nat>, d: nat) returns (n: nat)
    requires Inv(s) && Ranked(s, rank) && Linked(s, d)
    ensures Reach(s, d, n)
    decreases if d in rank then rank[d] else 0
  {
    hide Refs, EntryOk, CountOk;
    assert RankOk(s, rank, d) && HomeOk(s, d);
    if d == ROOT {
      n := 0;
    } else {
      var p := s.nodes[d].entries[1].inum;
      assert RankOk(s, rank, p);
      var m := LinkedReach(s, rank, p);
      n := m + 1;
      assert Reach(s, p, m) && NamedIn(s, p, d);
    }
  }

  lemma {:induction false} ReachLinked(s: State, d: nat, n: nat)
    requires Inv(s) && Reach(s, d, n)
    ensures Linked(s, d)
    decreases n
  {
    if n > 0 {
      var p: nat :| Reach(s, p, n - 1) && NamedIn(s, p, d);
      ReachLinked(s, p, n - 1);
      NamedLinked(s, p, d);
    }
  }

  /** A directory that a linked one names is linked. */
  lemma NamedLinked(s: State, p: nat, d: nat)
    requires Inv(s) && Linked(s, p) && NamedIn(s, p, d) && IsDir(s, d)
    ensures Linked(s, d)
  {
    var off: nat :| 2 <= off < |s.nodes[p].entries| && s.nodes[p].entries[off].inum == d;
    assert EntryOk(s, p, off) && ShapeOk(s, p) && CountOk(s, d);
    assert Names(s, p, off, d);
    assert (p, off) in Refs(s, d);
    assert |Refs(s, d)| > 0;
  }

  /** What the counts say of a directory is what the entries say. */
  lemma LinkedIffReachable(s: State, d: nat)
    requires Sound(s)
    ensures Linked(s, d) <==> Reachable(s, d)
  {
    hide Inv, Linked, Reach;
    if Linked(s, d) {
      var rank: map<nat, nat> :| Ranked(s, rank);
      var n := LinkedReach(s, rank, d);
    }
    if Reachable(s, d) {
      var n: nat :| Reach(s, d, n);
      ReachLinked(s, d, n);
    }
  }

  // ---- Steps --------------------------------------------------------------------

  /** No directory becomes linked, or gets another parent. */
  lemma RanksKept(s: State, n: State, rank: map<nat, nat>)
    requires Ranked(s, rank)
    requires forall d :: Linked(n, d) ==> Linked(s, d) && SameStart(s, n, d)
    ensures Ranked(n, rank)
  {
    forall d | Linked(n, d)
      ensures RankOk(n, rank, d)
    {
      assert RankOk(s, rank, d);
    }
  }

  predicate SameStart(s: State, n: State, d: nat)
    requires d in s.nodes && d in n.nodes
  {
    |s.nodes[d].entries| >= 2 ==> |n.nodes[d].entries| >= 2 && n.nodes[d].entries[1] == s.nodes[d].entries[1]
  }

  lemma CreateRanks(s: State, dp: nat, name: Name, kind: Kind, ip: nat, rank: map<nat, nat>)
    requires Inv(s) && Ranked(s, rank) && Enabled(s, Create(dp, name, kind, ip)) && Linked(s, dp)
    ensures dp in rank && Ranked(Next(s, Create(dp, name, kind, ip)), rank[ip := rank[dp] + 1])
  {
    hide Find, Refs, CountOk, EntryOk, Inv;
    var n, r := Next(s, Create(dp, name, kind, ip)), rank[ip := if dp in rank then rank[dp] + 1 else 0];
    assert RankOk(s, rank, dp);
    forall d | Linked(n, d)
      ensures RankOk(n, r, d)
    {
      if d != ip {
        ParentInside(s, d);
        assert RankOk(s, rank, d);
        KeepsStart(s, n, dp, Entry(ip, name), d);
      }
    }
  }

  lemma ParentInside(s: State, d: nat)
    requires Inv(s)
    ensures Linked(s, d) && |s.nodes[d].entries| >= 2 ==> s.nodes[d].entries[1].inum in s.nodes
  {
    if Linked(s, d) {
      assert HomeOk(s, d);
    }
  }

  lemma KeepsStart(s: State, n: State, dp: nat, e: Entry, d: nat)
    requires Inv(s) && IsDir(s, dp) && d in s.nodes && d in n.nodes && |s.nodes[d].entries| >= 2
    requires n.nodes[d].entries == if d == dp then Placed(s.nodes[d].entries, e) else s.nodes[d].entries
    ensures SameStart(s, n, d) && |n.nodes[d].entries| >= 2
  {
    assert ShapeOk(s, dp);
  }

  lemma UnlinkRanks(s: State, dp: nat, name: Name, rank: map<nat, nat>)
    requires Inv(s) && Ranked(s, rank) && Enabled(s, Unlink(dp, name))
    ensures Ranked(Next(s, Unlink(dp, name)), rank)
  {
    Found(s, dp, name);
    hide Find, Inv, EmptyDir;
    RanksKept(s, Next(s, Unlink(dp, name)), rank);
  }

  lemma LinkRanks(s: State, ip: nat, parent: Option<nat>, name: Name, rank: map<nat, nat>)
    requires Inv(s) && Ranked(s, rank) && Enabled(s, LinkEnd(ip, parent, name))
    ensures Ranked(Next(s, LinkEnd(ip, parent, name)), rank)
  {
    hide Find, Placed;
    var n := Next(s, LinkEnd(ip, parent, name));
    assert !s.nodes[ip].kind.Dir?;
    forall d | Linked(n, d)
      ensures Linked(s, d) && SameStart(s, n, d)
    {
      if |s.nodes[d].entries| >= 2 && Linkable(s.nodes, parent, name) {
        KeepsStart(s, n, parent.value, Entry(ip, name), d);
      }
    }
    RanksKept(s, n, rank);
  }

  lemma CountRanks(s: State, e: Event, rank: map<nat, nat>)
    requires Inv(s) && Ranked(s, rank) && Enabled(s, e) && (e.LinkBegin? || e.Drop? || e.Free?)
    ensures Ranked(Next(s, e), rank)
  {
    RanksKept(s, Next(s, e), rank);
  }

  lemma StepRanks(s: State, e: Event)
    requires Sound(s) && Enabled(s, e) && Orderly(s, e)
    ensures exists rank: map<nat, nat> :: Ranked(Next(s, e), rank)
  {
    hide Inv, Find, Ranked, Linked;
    var rank: map<nat, nat> :| Ranked(s, rank);
    match e
    case LinkEnd(ip, parent, name) => LinkRanks(s, ip, parent, name, rank);
    case Unlink(dp, name) => UnlinkRanks(s, dp, name, rank);
    case Create(dp, name, kind, ip) => CreateRanks(s, dp, name, kind, ip, rank);
    case _ => CountRanks(s, e, rank);
  }

  /** A step keeps counts and tree exactly when it makes no entry in a directory that cannot be reached. */
  lemma StepIsSoundIff(s: State, e: Event)
    requires Sound(s) && Enabled(s, e)
    ensures Sound(Next(s, e)) <==> Orderly(s, e)
  {
    hide Inv, Ranked;
    StepKeepsInvIff(s, e);
    if Orderly(s, e) {
      StepRanks(s, e);
    }
  }

  // ---- Runs --------------------------------------------------------------------

  /** Calls in any interleaving, with no new entry in a removed directory. */
  ghost predicate IsRun(s: State, events: seq<Event>)
    decreases |events|
  {
    events == [] || (Enabled(s, events[0]) && Orderly(s, events[0]) && IsRun(Next(s, events[0]), events[1..]))
  }

  ghost function Exec(s: State, events: seq<Event>): State
    requires IsRun(s, events)
    decreases |events|
  {
    if events == [] then s else Exec(Next(s, events[0]), events[1..])
  }

  /** The state mkfs leaves: a root directory with one link. */
  function Fresh(): State {
    State(map[ROOT := Node(Dir, 1, Dots(ROOT, ROOT))], multiset{}, multiset{})
  }

  lemma FreshSound()
    ensures Sound(Fresh())
  {
    var s := Fresh();
    assert Linked(s, ROOT) && Names(s, ROOT, 1, ROOT);
    assert Refs(s, ROOT) == {(ROOT, 1)} by {
      assert forall d, off: nat :: Names(s, d, off, ROOT) ==> d == ROOT && off == 1;
    }
    assert CountOk(s, ROOT) && ShapeOk(s, ROOT) && HomeOk(s, ROOT);
    assert Ranked(s, map[ROOT := 0]);
  }

  lemma {:induction false} RunIsSound(s: State, events: seq<Event>)
    requires Sound(s) && IsRun(s, events)
    ensures Sound(Exec(s, events))
    decreases |events|
  {
    hide Sound;
    if events != [] {
      StepIsSoundIff(s, events[0]);
      RunIsSound(Next(s, events[0]), events[1..]);
    }
  }

  // ---- Theorems --------------------------------------------------------------------

  /** Entry off of d, a directory that can be reached, names i and is not i's own ".". */
  ghost predicate Leads(s: State, d: nat, off: nat, i: nat) {
    && Reachable(s, d) && d in s.nodes && off < |s.nodes[d].entries| && s.nodes[d].entries[off].inum == i
    && !(d == i && s.nodes[d].entries[off].name == ".")
  }

  /** The entries that name i in directories that can be reached. */
  ghost function References(s: State, i: nat): set<(nat, nat)> {
    set d, off | d in s.nodes && 0 <= off < |s.nodes[d].entries| && Leads(s, d, off, i) :: (d, off)
  }

  /** The link count is the number of entries that name the inode, give or take calls under way. */
  ghost predicate RightCount(s: State, i: nat)
    requires i in s.nodes
  {
    s.nodes[i].nlink == |References(s, i)| + s.pending[i] + s.dropping[i]
  }

  lemma SoundCount(s: State, i: nat)
    requires Sound(s) && i in s.nodes
    ensures RightCount(s, i) && References(s, i) == Refs(s, i)
  {
    hide Linked, Reachable;
    forall d, off: nat
      ensures Leads(s, d, off, i) <==> Names(s, d, off, i)
    {
      LinkedIffReachable(s, d);
      LinkedInside(s, d);
    }
    assert References(s, i) == Refs(s, i);
    hide References, Refs;
    assert CountOk(s, i);
  }

  lemma LinkedInside(s: State, d: nat)
    ensures Linked(s, d) ==> d in s.nodes
  {
  }

  /** In every run, an inode with no call under way has as many links as entries name it in directories
      that can be reached from the root, its own "." not counted; so it is free to go exactly when
      nothing leads to it. */
  lemma LinksAreCounted(events: seq<Event>, i: nat)
    requires IsRun(Fresh(), events)
    requires var n := Exec(Fresh(), events); i in n.nodes && n.pending[i] == 0 && n.dropping[i] == 0
    ensures Exec(Fresh(), events).nodes[i].nlink == |References(Exec(Fresh(), events), i)|
  {
    hide Sound, References;
    FreshSound();
    RunIsSound(Fresh(), events);
    SoundCount(Exec(Fresh(), events), i);
  }

  /** In every run the directories that can be reached form a tree: to each but the root leads one entry,
      in the directory that its ".." names, and none to the root. */
  lemma DirectoriesFormATree(events: seq<Event>, x: nat) returns (d: nat, off: nat)
    requires IsRun(Fresh(), events) && Reachable(Exec(Fresh(), events), x)
    ensures var n := Exec(Fresh(), events);
      if x == ROOT then forall e: nat, k: nat :: !Downward(n, e, k, x)
      else ParentIs(n, x, d) && forall e: nat, k: nat :: Downward(n, e, k, x) <==> e == d && k == off
  {
    hide Sound, Downward;
    FreshSound();
    RunIsSound(Fresh(), events);
    var n := Exec(Fresh(), events);
    LinkedIffReachable(n, x);
    hide Reachable;
    if x == ROOT {
      forall e: nat, k: nat
        ensures !Downward(n, e, k, x)
      {
        RootUnnamed(n, e, k);
      }
      d, off := 0, 0;
    } else {
      d, off := OneEntry(n, x);
    }
  }

  /** An entry after the dots of a directory that can be reached. */
  ghost predicate Downward(s: State, d: nat, off: nat, x: nat) {
    Reachable(s, d) && d in s.nodes && 2 <= off < |s.nodes[d].entries| && s.nodes[d].entries[off].inum == x
  }

  lemma OneEntry(s: State, x: nat) returns (d: nat, off: nat)
    requires Sound(s) && Linked(s, x) && x != ROOT
    ensures ParentIs(s, x, d) && forall e: nat, k: nat :: Downward(s, e, k, x) <==> e == d && k == off
  {
    hide Reachable, Refs, CountOk;
    assert HomeOk(s, x) && ShapeOk(s, x);
    d := s.nodes[x].entries[1].inum;
    off :| 2 <= off < |s.nodes[d].entries| && s.nodes[d].entries[off].inum == x;
    LinkedIffReachable(s, d);
    forall e: nat, k: nat
      ensures Downward(s, e, k, x) <==> e == d && k == off
    {
      LinkedIffReachable(s, e);
      if Downward(s, e, k, x) {
        assert EntryOk(s, e, k);
      }
    }
  }

  lemma RootUnnamed(s: State, e: nat, k: nat)
    requires Sound(s)
    ensures !Downward(s, e, k, ROOT)
  {
    LinkedIffReachable(s, e);
    if Linked(s, e) && 2 <= k < |s.nodes[e].entries| {
      assert EntryOk(s, e, k);
    }
  }

  /** In every run, what unlink finds has a positive link count: its panic is out of reach. */
  lemma UnlinkNeverPanics(events: seq<Event>, dp: nat, name: Name)
    requires IsRun(Fresh(), events) && IsDir(Exec(Fresh(), events), dp) && name != "." && name != ".."
    requires Find(Exec(Fresh(), events).nodes[dp].entries, name, 0).Some?
    ensures var n := Exec(Fresh(), events);
      var ip := n.nodes[dp].entries[Find(n.nodes[dp].entries, name, 0).value].inum;
      ip in n.nodes && n.nodes[ip].nlink >= 1
  {
    FreshSound();
    RunIsSound(Fresh(), events);
    Found(Exec(Fresh(), events), dp, name);
  }

  // ---- Entries in removed directories --------------------------------------------------------------

  /** From s to n nothing changes but entries of dp, and perhaps a new inode that starts with dots. */
  ghost predicate ChangedOnlyIn(s: State, n: State, dp: nat) {
    && (forall i: nat :: i in s.nodes ==> i in n.nodes && n.nodes[i].kind == s.nodes[i].kind)
    && (forall i: nat :: i in s.nodes && i != dp ==> n.nodes[i].entries == s.nodes[i].entries)
    && (forall i: nat :: i in n.nodes && i !in s.nodes ==> |n.nodes[i].entries| <= 2)
  }

  /** Directory dp cannot be reached: changing its entries lets nothing be reached that could not. */
  lemma {:induction false} StillReached(s: State, n: State, dp: nat, d: nat, k: nat)
    requires Inv(s) && !Reachable(s, dp) && ChangedOnlyIn(s, n, dp) && Reach(n, d, k) && 0 !in n.nodes
    ensures Reach(s, d, k)
    decreases k
  {
    hide Inv;
    if k == 0 {
      RootInside(s);
    } else {
      var p: nat :| Reach(n, p, k - 1) && NamedIn(n, p, d);
      StillReached(s, n, dp, p, k - 1);
      assert Reachable(s, p);
      ReachLinked(s, p, k - 1);
      NamedInside(s, p, d);
      assert Reach(s, p, k - 1) && NamedIn(s, p, d);
    }
  }

  lemma RootInside(s: State)
    requires Inv(s)
    ensures IsDir(s, ROOT)
  {
  }

  lemma NamedInside(s: State, p: nat, d: nat)
    requires Inv(s) && Linked(s, p) && d != 0
    ensures NamedIn(s, p, d) ==> d in s.nodes
  {
    if NamedIn(s, p, d) {
      var off: nat :| 2 <= off < |s.nodes[p].entries| && s.nodes[p].entries[off].inum == d;
      assert EntryOk(s, p, off);
    }
  }

  /** Then no more entries lead to an inode than did before. */
  lemma NoMoreLeads(s: State, n: State, dp: nat, i: nat)
    requires Sound(s) && !Reachable(s, dp) && ChangedOnlyIn(s, n, dp) && 0 !in n.nodes
    ensures References(n, i) <= References(s, i)
  {
    hide Inv;
    forall d, off: nat | Leads(n, d, off, i)
      ensures Leads(s, d, off, i)
    {
      var k: nat :| Reach(n, d, k);
      StillReached(s, n, dp, d, k);
      assert Reachable(s, d);
    }
  }

  lemma SubsetSize(a: set<(nat, nat)>, b: set<(nat, nat)>)
    requires a <= b
    ensures |a| <= |b|
  {
    assert b == a + (b - a);
  }

  /** What create makes, file or directory, is counted right exactly when the directory it is made in can
      still be reached. */
  lemma CreateCountsIff(s: State, dp: nat, name: Name, kind: Kind, ip: nat)
    requires Sound(s) && Enabled(s, Create(dp, name, kind, ip))
    ensures RightCount(Next(s, Create(dp, name, kind, ip)), ip) <==> Reachable(s, dp)
  {
    hide Find, Placed, References, Reachable;
    var n := Next(s, Create(dp, name, kind, ip));
    LinkedIffReachable(s, dp);
    if Linked(s, dp) {
      StepIsSoundIff(s, Create(dp, name, kind, ip));
      SoundCount(n, ip);
    } else {
      Unnamed(s, ip);
      NoMoreLeads(s, n, dp, ip);
      NowhereNamed(s, ip);
    }
  }

  lemma NowhereNamed(s: State, i: nat)
    requires Sound(s) && i !in s.nodes && i != 0
    ensures References(s, i) == {}
  {
    Unnamed(s, i);
    hide Reachable;
    forall d, off: nat
      ensures !Leads(s, d, off, i)
    {
      LinkedIffReachable(s, d);
      assert !Names(s, d, off, i);
    }
  }

  /** A link to a file is counted right exactly when the directory it goes into can still be reached. */
  lemma LinkCountsIff(s: State, ip: nat, dp: nat, name: Name)
    requires Sound(s) && Enabled(s, LinkEnd(ip, Some(dp), name)) && Linkable(s.nodes, Some(dp), name)
    ensures RightCount(Next(s, LinkEnd(ip, Some(dp), name)), ip) <==> Reachable(s, dp)
  {
    hide Find, Placed, References, Reachable, Inv;
    var n := Next(s, LinkEnd(ip, Some(dp), name));
    LinkedIffReachable(s, dp);
    if Linked(s, dp) {
      StepIsSoundIff(s, LinkEnd(ip, Some(dp), name));
      SoundCount(n, ip);
    } else {
      RootInside(s);
      NoZero(s);
      NoMoreLeads(s, n, dp, ip);
      SubsetSize(References(n, ip), References(s, ip));
      SoundCount(s, ip);
    }
  }

  lemma NoZero(s: State)
    requires Inv(s)
    ensures 0 !in s.nodes
  {
  }

  /** A file whose only name is unlinked, and that nobody has open, is gone; its directory has lost the entry, and
      nothing else has changed. */
  lemma LastNameGone(s: State, dp: nat, off: nat)
    requires dp in s.nodes && off < |s.nodes[dp].entries|
    requires var e := s.nodes[dp].entries[off];
      && Unlinkable(s, dp, e.name) && Find(s.nodes[dp].entries, e.name, 0) == Some(off)
      && e.inum in s.nodes && !s.nodes[e.inum].kind.Dir? && s.nodes[e.inum].nlink == 1
    ensures var e := s.nodes[dp].entries[off];
      && IsRun(s, [Unlink(dp, e.name), Drop(e.inum), Free(e.inum)])
      && Exec(s, [Unlink(dp, e.name), Drop(e.inum), Free(e.inum)]) ==
         s.(nodes := s.nodes[dp := s.nodes[dp].(entries := s.nodes[dp].entries[off := Entry(0, "")])] - {e.inum})
  {
    hide Find;
    var e := s.nodes[dp].entries[off];
    var s2 := Next(Next(s, Unlink(dp, e.name)), Drop(e.inum));
    assert s2.dropping == s.dropping;
    RunOfThree(s, Unlink(dp, e.name), Drop(e.inum), Free(e.inum));
  }

  lemma RunOfThree(s: State, a: Event, b: Event, c: Event)
    requires Enabled(s, a) && Orderly(s, a)
    requires var s1 := Next(s, a); Enabled(s1, b) && Orderly(s1, b)
    requires var s2 := Next(Next(s, a), b); Enabled(s2, c) && Orderly(s2, c)
    ensures IsRun(s, [a, b, c]) && Exec(s, [a, b, c]) == Next(Next(Next(s, a), b), c)
  {
    hide Next, Enabled, Orderly;
    var s1, s2, s3 := Next(s, a), Next(Next(s, a), b), Next(Next(Next(s, a), b), c);
    assert [a, b, c][1..] == [b, c] && [b, c][1..] == [c] && [c][1..] == [];
    assert IsRun(s3, []) && Exec(s3, []) == s3;
    assert IsRun(s2, [c]) && Exec(s2, [c]) == s3;
    assert IsRun(s1, [b, c]) && Exec(s1, [b, c]) == s3;
  }

  /** A directory made and removed: whatever is created in it then is counted and cannot be reached. */
  lemma RemovedDirectory(kind: Kind)
    ensures var events := [Create(ROOT, "d", Dir, 2), Unlink(ROOT, "d"), Drop(2)];
      && IsRun(Fresh(), events)
      && var s := Exec(Fresh(), events);
      && Enabled(s, Create(2, "x", kind, 3)) && !Reachable(s, 2)
      && !RightCount(Next(s, Create(2, "x", kind, 3)), 3)
  {
    var events := [Create(ROOT, "d", Dir, 2), Unlink(ROOT, "d"), Drop(2)];
    var s0 := Fresh();
    var s1 := Next(s0, events[0]);
    assert s1.nodes[ROOT].entries == Dots(ROOT, ROOT) + [Entry(2, "d")];
    assert s1.nodes[2] == Node(Dir, 1, Dots(2, ROOT)) && s1.nodes[ROOT].nlink == 2;
    assert Find(s1.nodes[ROOT].entries, "d", 2) == Some(2);
    assert Find(s1.nodes[ROOT].entries, "d", 0) == Some(2);
    var s2 := Next(s1, events[1]);
    assert s2.nodes[2] == Node(Dir, 1, Dots(2, ROOT)) && s2.dropping[2] == 1;
    var s3 := Next(s2, events[2]);
    assert s3.nodes[2] == Node(Dir, 0, Dots(2, ROOT)) && 3 !in s3.nodes;
    assert Find(s3.nodes[2].entries, "x", 2) == None;
    RunOfThree(s0, events[0], events[1], events[2]);
    FreshSound();
    RunIsSound(s0, events);
    LinkedIffReachable(s3, 2);
    CreateCountsIff(s3, 2, "x", kind, 3);
  }
}
