/** link, unlink and create over inodes that are updated in place, with the directory scans they use.
    Paths are resolved by the caller: each call gets the inodes that its paths lead to. */
module LinkCalls {
  import opened Wrappers
  import opened LinkSpec
  import opened LinkTree

  class Tree {
    var nodes: map<nat, Node>

    /** The tree between calls. */
    ghost function Rest(): State
      reads this
    {
      State(nodes, multiset{}, multiset{})
    }

    ghost predicate Valid()
      reads this
    {
      Sound(Rest())
    }

    constructor ()
      ensures Valid() && Rest() == Fresh()
    {
      nodes := map[ROOT := Node(Dir, 1, Dots(ROOT, ROOT))];
      new;
      FreshSound();
    }

    /** dirlookup: the offset of the first entry in use with the name. */
    method Dirlookup(dp: nat, name: Name) returns (r: Option<nat>)
      requires dp in nodes
      ensures r == Find(nodes[dp].entries, name, 0)
      ensures r.Some? ==> forall i :: 0 <= i < r.value ==>
        nodes[dp].entries[i].inum == 0 || nodes[dp].entries[i].name != name
    {
      var es := nodes[dp].entries;
      for off := 0 to |es|
        invariant Find(es, name, 0) == Find(es, name, off)
        invariant forall i :: 0 <= i < off ==> es[i].inum == 0 || es[i].name != name
      {
        if es[off].inum != 0 && es[off].name == name {
          return Some(off);
        }
      }
      r := None;
    }

    /** dirlink: refuses a name that is present; else the first free entry or the end takes it. */
    method Dirlink(dp: nat, name: Name, inum: nat) returns (ok: bool)
      requires dp in nodes
      modifies this
      ensures ok <==> Find(old(nodes)[dp].entries, name, 0).None?
      ensures nodes == if ok then WithEntry(old(nodes), dp, Entry(inum, name)) else old(nodes)
    {
      var present := Dirlookup(dp, name);
      if present.Some? {
        return false;
      }
      var es := nodes[dp].entries;
      var off := 0;
      while off < |es|
        invariant off <= |es| && Slot(es, 0) == Slot(es, off)
      {
        if es[off].inum == 0 {
          break;
        }
        off := off + 1;
      }
      var e := Entry(inum, name);
      nodes := nodes[dp := nodes[dp].(entries := if off == |es| then es + [e] else es[off := e])];
      ok := true;
    }

    /** isdirempty. */
    method Isdirempty(dp: nat) returns (empty: bool)
      requires dp in nodes
      ensures empty <==> EmptyDir(nodes[dp].entries)
    {
      var es := nodes[dp].entries;
      var off := 2;
      while off < |es|
        invariant 2 <= off && forall i :: 2 <= i < off && i < |es| ==> es[i].inum == 0
      {
        if es[off].inum != 0 {
          return false;
        }
        off := off + 1;
      }
      empty := true;
    }

    /** link: one more name for the file. When there is no directory to put it in, or the name is taken
        there, the count it added is taken back and nothing has changed. The directory may have been
        removed in the meantime, and then counts and tree are no longer right. */
    method Link(target: Option<nat>, parent: Option<nat>, name: Name) returns (ok: bool)
      requires Valid()
      requires target.Some? ==> target.value in nodes
      requires parent.Some? ==> IsDir(Rest(), parent.value)
      modifies this
      ensures Valid() <==> !ok || (parent.Some? && old(Reachable(Rest(), parent.value)))
      ensures ok <==> target.Some? && !old(nodes)[target.value].kind.Dir? && Linkable(old(nodes), parent, name)
      ensures !ok ==> nodes == old(nodes)
      ensures ok ==>
        nodes == WithEntry(Relinked(old(nodes), target.value, old(nodes)[target.value].nlink + 1), parent.value,
        Entry(target.value, name))
      ensures ok ==> nodes.Keys == old(nodes).Keys && forall d :: d in nodes ==>
        && nodes[d].kind == old(nodes)[d].kind
        && nodes[d].nlink == old(nodes)[d].nlink + (if d == target.value then 1 else 0)
        && if d == parent.value then Gains(old(nodes)[d].entries, nodes[d].entries, Entry(target.value, name))
           else nodes[d].entries == old(nodes)[d].entries
    {
      hide Sound, Find, Placed, Reachable, Gains;
      if target.None? || nodes[target.value].kind.Dir? {
        return false;
      }
      var ip := target.value;
      ghost var s := Next(Rest(), LinkBegin(ip));
      StepIsSoundIff(Rest(), LinkBegin(ip));
      if parent.Some? {
        LinkedIffReachable(Rest(), parent.value);
      }
      nodes := nodes[ip := nodes[ip].(nlink := nodes[ip].nlink + 1)];
      StepIsSoundIff(s, LinkEnd(ip, parent, name));
      if parent.Some? {
        ok := Dirlink(parent.value, name, ip);
      } else {
        ok := false;
      }
      if !ok {
        nodes := nodes[ip := nodes[ip].(nlink := nodes[ip].nlink - 1)];
        assert nodes == old(nodes);
      } else {
        PlacedGains(old(nodes)[parent.value].entries, Entry(ip, name));
      }
      assert s.pending - multiset{ip} == multiset{};
    }

    /** unlink: the entry goes and the count with it, and for a directory the count of its parent. A dot,
        a missing name or a directory in use is refused, and nothing has changed. */
    method Unlink(dp: nat, name: Name) returns (ok: bool)
      requires Valid() && IsDir(Rest(), dp)
      modifies this
      ensures Valid()
      ensures ok <==> old(Unlinkable(Rest(), dp, name))
      ensures !ok ==> nodes == old(nodes)
      ensures ok ==> nodes == Removed(old(nodes), dp, Find(old(nodes)[dp].entries, name, 0).value)
      ensures ok ==>
        var off := Find(old(nodes)[dp].entries, name, 0).value;
        var ip := old(nodes)[dp].entries[off].inum;
        && nodes.Keys == old(nodes).Keys && ip in nodes && forall d :: d in nodes ==>
           && nodes[d].kind == old(nodes)[d].kind
           && nodes[d].nlink + (if d == ip then 1 else 0) + (if d == dp && nodes[ip].kind.Dir? then 1 else 0) ==
              old(nodes)[d].nlink
           && nodes[d].entries == if d == dp then old(nodes)[d].entries[off := Entry(0, "")] else old(nodes)[d].entries
    {
      hide Sound, Find, EmptyDir;
      if name == "." || name == ".." {
        return false;
      }
      var found := Dirlookup(dp, name);
      if found.None? {
        return false;
      }
      var off := found.value;
      var ip := nodes[dp].entries[off].inum;
      FoundSound(Rest(), dp, name);
      if nodes[ip].kind.Dir? {
        var empty := Isdirempty(ip);
        if !empty {
          return false;
        }
      }
      ghost var s := Next(Rest(), LinkSpec.Unlink(dp, name));
      StepIsSoundIff(Rest(), LinkSpec.Unlink(dp, name));
      StepIsSoundIff(s, Drop(ip));
      nodes := nodes[dp := nodes[dp].(entries := nodes[dp].entries[off := Entry(0, "")])];
      if nodes[ip].kind.Dir? {
        nodes := nodes[dp := nodes[dp].(nlink := nodes[dp].nlink - 1)];
      }
      nodes := nodes[ip := nodes[ip].(nlink := nodes[ip].nlink - 1)];
      assert s.dropping - multiset{ip} == multiset{};
      ok := true;
    }

    /** create: the inode of that name if there is one and both are files, or a new one, ip, which
        ialloc found; a new directory gets its dots. 0 when the name stands for something else. None is
        ilock's panic at an inode that has been freed, which only the ".." of a removed directory can name.
        In a removed directory the new inode is counted and cannot be reached. */
    method Create(dp: nat, name: Name, kind: Kind, ip: nat) returns (r: Option<nat>)
      requires Valid() && IsDir(Rest(), dp) && ip !in nodes && ip != 0
      modifies this
      ensures var found := Find(old(nodes)[dp].entries, name, 0);
        if found.None? then
          && r == Some(ip) && nodes == Created(old(nodes), dp, name, kind, ip)
          && (Valid() <==> old(Reachable(Rest(), dp)))
        else
          && nodes == old(nodes)
          && var i := nodes[dp].entries[found.value].inum;
          && r == if i !in nodes then None else if kind.File? && nodes[i].kind.File? then Some(i) else Some(0)
      ensures r.None? ==> old(!Reachable(Rest(), dp)) && name == ".."
      ensures Find(old(nodes)[dp].entries, name, 0).None? ==>
        && nodes.Keys == old(nodes).Keys + {ip}
        && nodes[ip] == Node(kind, 1, if kind.Dir? then [Entry(ip, "."), Entry(dp, "..")] else [])
        && nodes[dp].kind.Dir? && nodes[dp].nlink == old(nodes)[dp].nlink + (if kind.Dir? then 1 else 0)
        && Gains(old(nodes)[dp].entries, nodes[dp].entries, Entry(ip, name))
        && forall d :: d in old(nodes) && d != dp ==> nodes[d] == old(nodes)[d]
    {
      hide Sound, Find, Placed, Slot, Reachable, Gains;
      LinkedIffReachable(Rest(), dp);
      var found := Dirlookup(dp, name);
      if found.Some? {
        var i := nodes[dp].entries[found.value].inum;
        FoundInside(Rest(), dp, name);
        return if i !in nodes then None else if kind.File? && nodes[i].kind.File? then Some(i) else Some(0);
      }
      StepIsSoundIff(Rest(), LinkSpec.Create(dp, name, kind, ip));
      nodes := nodes[ip := Node(kind, 1, [])];
      if kind.Dir? {
        nodes := nodes[dp := nodes[dp].(nlink := nodes[dp].nlink + 1)];
        NewDots(ip, dp);
        var one := Dirlink(ip, ".", ip);
        var two := Dirlink(ip, "..", dp);
      }
      PlacedGains(nodes[dp].entries, Entry(ip, name));
      var linked := Dirlink(dp, name, ip);
      assert nodes == Created(old(nodes), dp, name, kind, ip);
      r := Some(ip);
    }
  }

  predicate InUseUpTo(entries: seq<Entry>, k: nat)
    requires k <= |entries|
  {
    forall i :: 0 <= i < k ==> entries[i].inum != 0
  }

  /** The first free entry of a directory, or a new one at its end, took e. */
  ghost predicate Gains(before: seq<Entry>, after: seq<Entry>, e: Entry) {
    || (InUseUpTo(before, |before|) && after == before + [e])
    || exists k: nat :: k < |before| && InUseUpTo(before, k) && before[k].inum == 0 && after == before[k := e]
  }

  lemma PlacedGains(entries: seq<Entry>, e: Entry)
    ensures Gains(entries, Placed(entries, e), e)
  {
    var k := Slot(entries, 0);
    assert k < |entries| ==> Placed(entries, e) == entries[k := e];
  }

  lemma FoundSound(s: State, dp: nat, name: Name)
    requires Sound(s) && IsDir(s, dp) && name != "." && name != ".." && Find(s.nodes[dp].entries, name, 0).Some?
    ensures var ip := s.nodes[dp].entries[Find(s.nodes[dp].entries, name, 0).value].inum;
      ip in s.nodes && ip != dp && s.nodes[ip].nlink > 0 && s.nodes[dp].nlink > 0
  {
    Found(s, dp, name);
  }

  /** What a directory names is allocated, but for the ".." of a removed one. */
  lemma FoundInside(s: State, dp: nat, name: Name)
    requires Sound(s) && IsDir(s, dp) && Find(s.nodes[dp].entries, name, 0).Some?
    ensures s.nodes[dp].entries[Find(s.nodes[dp].entries, name, 0).value].inum in s.nodes ||
      (name == ".." && !Linked(s, dp))
  {
    var off := Find(s.nodes[dp].entries, name, 0).value;
    assert ShapeOk(s, dp) && HomeOk(s, dp) && EntryOk(s, dp, off);
  }

  /** The tree after entry off of dp is unlinked. */
  function Removed(nodes: map<nat, Node>, dp: nat, off: nat): map<nat, Node>
    requires dp in nodes && off < |nodes[dp].entries| && nodes[dp].entries[off].inum in nodes
    requires nodes[dp].nlink > 0 && nodes[nodes[dp].entries[off].inum].nlink > 0
  {
    var ip := nodes[dp].entries[off].inum;
    Relinked(Unlinked(nodes, dp, off, ip), ip, nodes[ip].nlink - 1)
  }

  /** Two dirlinks into an empty directory make the dots. */
  lemma NewDots(ip: nat, dp: nat)
    requires ip != 0
    ensures Find([], ".", 0).None? && Placed([], Entry(ip, ".")) == [Entry(ip, ".")]
    ensures Find([Entry(ip, ".")], "..", 0).None? && Placed([Entry(ip, ".")], Entry(dp, "..")) == Dots(ip, dp)
  {
  }
}
