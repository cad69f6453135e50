/** Directories and link counts: link, unlink and create as steps of any number of processes,
    interleaved where inodes are unlocked. */
module LinkSpec {
  import opened Wrappers

  const ROOT: nat := 1

  /** A name, at most DIRSIZ characters long. */
  type Name = string

  /** A directory entry; inum 0 marks a free one. */
  datatype Entry = Entry(inum: nat, name: Name)

  datatype Kind = File | Dir | Dev

  datatype Node = Node(kind: Kind, nlink: nat, entries: seq<Entry>)

  /** Allocated inodes, with the calls under way: `pending` links that are counted but have no entry
      yet, `dropping` entries that are removed but still counted. */
  datatype State = State(nodes: map<nat, Node>, pending: multiset<nat>, dropping: multiset<nat>)

  // ---- Directory contents --------------------------------------------------------------------

  /** dirlookup: the first entry in use with the name, from k on. */
  function Find(entries: seq<Entry>, name: Name, k: nat): (r: Option<nat>)
    requires k <= |entries|
    ensures r.Some? ==> k <= r.value < |entries| && entries[r.value].inum != 0 && entries[r.value].name == name
    ensures r.None? ==> forall i :: k <= i < |entries| ==> entries[i].inum == 0 || entries[i].name != name
    decreases |entries| - k
  {
    if k == |entries| then None
    else if entries[k].inum != 0 && entries[k].name == name then Some(k)
    else Find(entries, name, k + 1)
  }

  /** dirlink's place for a new entry: the first free one, or the end. */
  function Slot(entries: seq<Entry>, k: nat): (r: nat)
    requires k <= |entries|
    ensures k <= r <= |entries| && (r < |entries| ==> entries[r].inum == 0)
    ensures forall i :: k <= i < r ==> entries[i].inum != 0
    decreases |entries| - k
  {
    if k == |entries| || entries[k].inum == 0 then k else Slot(entries, k + 1)
  }

  function Placed(entries: seq<Entry>, e: Entry): seq<Entry> {
    var k := Slot(entries, 0);
    if k == |entries| then entries + [e] else entries[k := e]
  }

  /** isdirempty: nothing after the dots. */
  predicate EmptyDir(entries: seq<Entry>) {
    forall i :: 2 <= i < |entries| ==> entries[i].inum == 0
  }

  // ---- Calls --------------------------------------------------------------------

  /** dirlink can put the name into the directory. */
  predicate Linkable(nodes: map<nat, Node>, dp: Option<nat>, name: Name) {
    dp.Some? && dp.value in nodes && nodes[dp.value].kind.Dir? && Find(nodes[dp.value].entries, name, 0).None?
  }

  function Relinked(nodes: map<nat, Node>, i: nat, nlink: nat): map<nat, Node>
    requires i in nodes
  {
    nodes[i := nodes[i].(nlink := nlink)]
  }

  function WithEntry(nodes: map<nat, Node>, d: nat, e: Entry): map<nat, Node>
    requires d in nodes
  {
    nodes[d := nodes[d].(entries := Placed(nodes[d].entries, e))]
  }

  function WithoutEntry(nodes: map<nat, Node>, d: nat, off: nat): map<nat, Node>
    requires d in nodes && off < |nodes[d].entries|
  {
    nodes[d := nodes[d].(entries := nodes[d].entries[off := Entry(0, "")])]
  }

  function Dots(ip: nat, dp: nat): seq<Entry> {
    [Entry(ip, "."), Entry(dp, "..")]
  }

  /** create, where the name is new: ip is what ialloc found. */
  function Created(nodes: map<nat, Node>, dp: nat, name: Name, kind: Kind, ip: nat): map<nat, Node>
    requires dp in nodes
  {
    var up := if kind.Dir? then Relinked(nodes, dp, nodes[dp].nlink + 1) else nodes;
    var made := up[ip := Node(kind, 1, if kind.Dir? then Dots(ip, dp) else [])];
    WithEntry(made, dp, Entry(ip, name))
  }

  /** The events. `LinkBegin` to `LinkEnd` is one link call, `Unlink` to `Drop` one unlink call; in
      between, the inode counted and not yet named, or named no more and still counted, is unlocked or
      waits. `Free` is the last iput of an inode without links. */
  datatype Event =
    | LinkBegin(ip: nat)
    | LinkEnd(ip: nat, parent: Option<nat>, name: Name)
    | Unlink(dp: nat, name: Name)
    | Drop(ip: nat)
    | Create(dp: nat, name: Name, kind: Kind, ip: nat)
    | Free(ip: nat)

  /** Still linked: counted for other than entries already removed. */
  predicate Linked(s: State, d: nat) {
    d in s.nodes && s.nodes[d].kind.Dir? && s.nodes[d].nlink > s.dropping[d]
  }

  /** The calls that change something. */
  predicate Enabled(s: State, e: Event) {
    match e
    case LinkBegin(ip) => ip in s.nodes && !s.nodes[ip].kind.Dir?
    case LinkEnd(ip, _, _) => ip in s.nodes && s.pending[ip] > 0 && s.nodes[ip].nlink > 0
    case Unlink(dp, name) => Unlinkable(s, dp, name)
    case Drop(ip) => ip in s.nodes && s.dropping[ip] > 0 && s.nodes[ip].nlink > 0
    case Create(dp, name, _, ip) => Linkable(s.nodes, Some(dp), name) && ip !in s.nodes && ip != 0
    case Free(ip) => ip in s.nodes && s.nodes[ip].nlink == 0
  }

  /** A new entry goes into a directory that is still linked; the calls do not look. */
  predicate Orderly(s: State, e: Event) {
    match e
    case LinkEnd(_, dp, name) => Linkable(s.nodes, dp, name) ==> Linked(s, dp.value)
    case Create(dp, _, _, _) => Linked(s, dp)
    case _ => true
  }

  /** unlink goes ahead: the name is there, is no dot, and names no directory in use. */
  predicate Unlinkable(s: State, dp: nat, name: Name) {
    && dp in s.nodes && s.nodes[dp].kind.Dir? && name != "." && name != ".."
    && Find(s.nodes[dp].entries, name, 0).Some?
    && var ip := s.nodes[dp].entries[Find(s.nodes[dp].entries, name, 0).value].inum;
    && ip in s.nodes && s.nodes[ip].nlink > 0 && s.nodes[dp].nlink > 0
    && (s.nodes[ip].kind.Dir? ==> EmptyDir(s.nodes[ip].entries))
  }

  /** unlink's first half: the entry goes, and with a directory its "..". */
  function Unlinked(nodes: map<nat, Node>, dp: nat, off: nat, ip: nat): map<nat, Node>
    requires dp in nodes && ip in nodes && off < |nodes[dp].entries| && nodes[dp].nlink > 0
  {
    var n := WithoutEntry(nodes, dp, off);
    if nodes[ip].kind.Dir? then Relinked(n, dp, nodes[dp].nlink - 1) else n
  }

  function Next(s: State, e: Event): State
    requires Enabled(s, e)
  {
    match e
    case LinkBegin(ip) =>
      s.(nodes := Relinked(s.nodes, ip, s.nodes[ip].nlink + 1), pending := s.pending + multiset{ip})
    case LinkEnd(ip, dp, name) =>
      s.(nodes := if Linkable(s.nodes, dp, name) then WithEntry(s.nodes, dp.value, Entry(ip, name))
        else Relinked(s.nodes, ip, s.nodes[ip].nlink - 1),
         pending := s.pending - multiset{ip})
    case Unlink(dp, name) =>
      var off := Find(s.nodes[dp].entries, name, 0).value;
      var ip := s.nodes[dp].entries[off].inum;
      s.(nodes := Unlinked(s.nodes, dp, off, ip), dropping := s.dropping + multiset{ip})
    case Drop(ip) =>
      s.(nodes := Relinked(s.nodes, ip, s.nodes[ip].nlink - 1), dropping := s.dropping - multiset{ip})
    case Create(dp, name, kind, ip) =>
      s.(nodes := Created(s.nodes, dp, name, kind, ip))
    case Free(ip) =>
      s.(nodes := s.nodes - {ip})
  }

  // ---- The invariant --------------------------------------------------------------------

  /** Entry off of d, a linked directory, names i and is not i's own ".". */
  predicate Names(s: State, d: nat, off: nat, i: nat) {
    && Linked(s, d) && off < |s.nodes[d].entries| && s.nodes[d].entries[off].inum == i
    && !(d == i && s.nodes[d].entries[off].name == ".")
  }

  /** The entries that name i. */
  ghost function Refs(s: State, i: nat): set<(nat, nat)> {
    set d, off | d in s.nodes && 0 <= off < |s.nodes[d].entries| && Names(s, d, off, i) :: (d, off)
  }

  /** The link count is the number of entries that name the inode, give or take calls under way. */
  ghost predicate CountOk(s: State, i: nat)
    requires i in s.nodes
  {
    s.nodes[i].nlink == |Refs(s, i)| + s.pending[i] + s.dropping[i]
  }

  predicate IsDir(s: State, d: nat) {
    d in s.nodes && s.nodes[d].kind.Dir?
  }

  /** A directory starts with its dots and has no others; one that is not linked has nothing else. */
  ghost predicate ShapeOk(s: State, d: nat)
    requires d in s.nodes
  {
    var es := s.nodes[d].entries;
    if !s.nodes[d].kind.Dir? then es == []
    else
      && |es| >= 2 && es[0] == Entry(d, ".") && es[1].name == ".." && es[1].inum != 0
      && (forall off :: 2 <= off < |es| && es[off].inum != 0 ==>
        Linked(s, d) && es[off].name != "." && es[off].name != "..")
  }

  /** Entry off of d, after the dots, names an allocated inode; a directory is named only by its own
      "..", and once. */
  ghost predicate EntryOk(s: State, d: nat, off: nat)
    requires d in s.nodes && off < |s.nodes[d].entries|
  {
    var i := s.nodes[d].entries[off].inum;
    Linked(s, d) && 2 <= off && i != 0 ==>
      && i in s.nodes && i != ROOT
      && (s.nodes[i].kind.Dir? ==> ParentIs(s, i, d) && OnlyAt(s, d, off, i))
  }

  predicate ParentIs(s: State, i: nat, d: nat) {
    i in s.nodes && |s.nodes[i].entries| >= 2 && s.nodes[i].entries[1].inum == d
  }

  /** No other entry of d after the dots names i. */
  predicate OnlyAt(s: State, d: nat, off: nat, i: nat) {
    d in s.nodes && forall k :: 2 <= k < |s.nodes[d].entries| && s.nodes[d].entries[k].inum == i ==> k == off
  }

  predicate NamedIn(s: State, p: nat, x: nat) {
    p in s.nodes && exists off :: 2 <= off < |s.nodes[p].entries| && s.nodes[p].entries[off].inum == x
  }

  /** A linked directory is named by its parent, which is linked too; root is its own parent. */
  ghost predicate HomeOk(s: State, x: nat)
    requires x in s.nodes
  {
    Linked(s, x) && |s.nodes[x].entries| >= 2 ==>
      var p := s.nodes[x].entries[1].inum;
      if x == ROOT then p == ROOT
      else Linked(s, p) && p != x && NamedIn(s, p, x)
  }

  ghost predicate Inv(s: State) {
    && 0 !in s.nodes && Linked(s, ROOT)
    && (forall i: nat :: s.pending[i] > 0 ==> i in s.nodes && !s.nodes[i].kind.Dir?)
    && (forall i: nat :: s.dropping[i] > 0 ==> i in s.nodes)
    && (forall i {:trigger CountOk(s, i)} :: i in s.nodes ==> CountOk(s, i))
    && (forall i {:trigger ShapeOk(s, i)} :: i in s.nodes ==> ShapeOk(s, i))
    && (forall i {:trigger HomeOk(s, i)} :: i in s.nodes ==> HomeOk(s, i))
    && (forall d, off: nat {:trigger EntryOk(s, d, off)} :: d in s.nodes && off < |s.nodes[d].entries| ==>
      EntryOk(s, d, off))
  }

  // ---- Steps that change no entry --------------------------------------------------------------------

  /** From s to n only link counts changed, and every directory is linked as before. */
  ghost predicate SameTree(s: State, n: State) {
    && n.nodes.Keys == s.nodes.Keys
    && (forall i :: i in s.nodes ==> n.nodes[i].kind == s.nodes[i].kind && n.nodes[i].entries == s.nodes[i].entries)
    && (forall i: nat :: Linked(n, i) <==> Linked(s, i))
  }

  lemma SameRefs(s: State, n: State, i: nat)
    requires SameTree(s, n)
    ensures Refs(n, i) == Refs(s, i)
  {
  }

  lemma SameTreeKeepsInv(s: State, n: State)
    requires Inv(s) && SameTree(s, n)
    requires forall i: nat :: n.pending[i] > 0 ==> i in n.nodes && !n.nodes[i].kind.Dir?
    requires forall i: nat :: n.dropping[i] > 0 ==> i in n.nodes
    requires forall i :: i in s.nodes ==>
      n.nodes[i].nlink - n.pending[i] - n.dropping[i] == s.nodes[i].nlink - s.pending[i] - s.dropping[i]
    ensures Inv(n)
  {
    hide CountOk, ShapeOk, HomeOk, EntryOk;
    forall i | i in n.nodes
      ensures CountOk(n, i) && ShapeOk(n, i) && HomeOk(n, i)
    {
      assert CountOk(s, i) && ShapeOk(s, i) && HomeOk(s, i);
      SameNode(s, n, i);
    }
    forall d, off: nat | d in n.nodes && off < |n.nodes[d].entries|
      ensures EntryOk(n, d, off)
    {
      assert EntryOk(s, d, off);
      SameEntry(s, n, d, off);
    }
  }

  lemma SameNode(s: State, n: State, i: nat)
    requires SameTree(s, n) && i in s.nodes && CountOk(s, i) && ShapeOk(s, i) && HomeOk(s, i)
    requires n.nodes[i].nlink - n.pending[i] - n.dropping[i] == s.nodes[i].nlink - s.pending[i] - s.dropping[i]
    ensures CountOk(n, i) && ShapeOk(n, i) && HomeOk(n, i)
  {
    hide Linked, Refs;
    SameRefs(s, n, i);
  }

  lemma SameEntry(s: State, n: State, d: nat, off: nat)
    requires SameTree(s, n) && d in s.nodes && off < |s.nodes[d].entries| && EntryOk(s, d, off)
    ensures EntryOk(n, d, off)
  {
  }

  lemma BumpKeepsInv(s: State, e: Event)
    requires Inv(s) && Enabled(s, e) && (e.LinkBegin? || e.Drop? ||
      (e.LinkEnd? && !Linkable(s.nodes, e.parent, e.name)))
    ensures Inv(Next(s, e))
  {
    hide CountOk, ShapeOk, HomeOk, EntryOk;
    var n := Next(s, e);
    match e {
      case LinkBegin(ip) => Bumped(s, n, ip, n.nodes[ip].nlink);
      case LinkEnd(ip, _, _) => Bumped(s, n, ip, n.nodes[ip].nlink);
      case Drop(ip) => Bumped(s, n, ip, n.nodes[ip].nlink);
    }
  }

  /** A count changed along with the bookkeeping. */
  lemma Bumped(s: State, n: State, ip: nat, nlink: nat)
    requires Inv(s) && ip in s.nodes && n.nodes == Relinked(s.nodes, ip, nlink)
    requires forall i: nat :: i != ip ==> n.pending[i] == s.pending[i] && n.dropping[i] == s.dropping[i]
    requires nlink - n.pending[ip] - n.dropping[ip] == s.nodes[ip].nlink - s.pending[ip] - s.dropping[ip]
    requires s.nodes[ip].kind.Dir? ==> n.pending[ip] == s.pending[ip]
    ensures Inv(n)
  {
    hide CountOk, ShapeOk, HomeOk, EntryOk;
    SameTreeKeepsInv(s, n);
  }

  // ---- New entries --------------------------------------------------------------------

  /** From s to n, directory d got an entry for i at k, which was free or the end. */
  ghost predicate Adds(s: State, n: State, d: nat, k: nat, e: Entry) {
    && d in s.nodes && d in n.nodes && 2 <= k <= |s.nodes[d].entries|
    && |n.nodes[d].entries| == (if k == |s.nodes[d].entries| then k + 1 else |s.nodes[d].entries|)
    && n.nodes[d].entries[k] == e && (k < |s.nodes[d].entries| ==> s.nodes[d].entries[k].inum == 0)
    && (forall j :: 0 <= j < |s.nodes[d].entries| && j != k ==> n.nodes[d].entries[j] == s.nodes[d].entries[j])
  }

  lemma PlacedAdds(s: State, n: State, d: nat, e: Entry)
    requires IsDir(s, d) && ShapeOk(s, d) && d in n.nodes && n.nodes[d].entries == Placed(s.nodes[d].entries, e) &&
      d != 0
    ensures Adds(s, n, d, Slot(s.nodes[d].entries, 0), e)
  {
  }

  /** A name that is not found is not a dot. */
  lemma NotADot(s: State, d: nat, name: Name)
    requires IsDir(s, d) && ShapeOk(s, d) && d != 0 && Find(s.nodes[d].entries, name, 0).None?
    ensures name != "." && name != ".."
  {
  }

  /** An entry for a file was added: the rest of the tree is as it was. */
  ghost predicate FileAdded(s: State, n: State, d: nat, k: nat, i: nat, name: Name) {
    && Inv(s) && Linked(s, d) && i in s.nodes && !s.nodes[i].kind.Dir? && name != "." && name != ".."
    && Adds(s, n, d, k, Entry(i, name))
    && n.nodes.Keys == s.nodes.Keys && n.nodes[d].kind == s.nodes[d].kind && n.nodes[d].nlink == s.nodes[d].nlink
    && (forall j :: j in s.nodes && j != d ==> n.nodes[j] == s.nodes[j])
    && n.dropping == s.dropping
  }

  lemma AddedRefs(s: State, n: State, d: nat, k: nat, i: nat, name: Name, j: nat)
    requires FileAdded(s, n, d, k, i, name) && j in s.nodes
    ensures Refs(n, j) == Refs(s, j) + if j == i then {(d, k)} else {}
    ensures (d, k) !in Refs(s, j)
  {
  }

  lemma AddedNode(s: State, n: State, d: nat, k: nat, i: nat, name: Name, j: nat)
    requires FileAdded(s, n, d, k, i, name) && j in s.nodes && ShapeOk(s, j) && HomeOk(s, j)
    ensures ShapeOk(n, j) && HomeOk(n, j)
  {
  }

  lemma AddedEntry(s: State, n: State, d: nat, k: nat, i: nat, name: Name, e: nat, off: nat)
    requires FileAdded(s, n, d, k, i, name) && e in n.nodes && off < |n.nodes[e].entries|
    requires off < |s.nodes[e].entries| ==> EntryOk(s, e, off)
    ensures EntryOk(n, e, off)
  {
  }

  lemma AddKeepsInv(s: State, n: State, d: nat, k: nat, i: nat, name: Name)
    requires FileAdded(s, n, d, k, i, name) && s.pending[i] > 0 && n.pending == s.pending - multiset{i}
    ensures Inv(n)
  {
    hide CountOk, ShapeOk, HomeOk, EntryOk;
    forall j | j in n.nodes
      ensures CountOk(n, j) && ShapeOk(n, j) && HomeOk(n, j)
    {
      assert CountOk(s, j) && ShapeOk(s, j) && HomeOk(s, j);
      AddedNode(s, n, d, k, i, name, j);
      AddedRefs(s, n, d, k, i, name, j);
      AddedCount(s, n, (d, k), i, j);
    }
    forall e, off: nat | e in n.nodes && off < |n.nodes[e].entries|
      ensures EntryOk(n, e, off)
    {
      assert off < |s.nodes[e].entries| ==> EntryOk(s, e, off);
      AddedEntry(s, n, d, k, i, name, e, off);
    }
  }

  lemma AddedCount(s: State, n: State, r: (nat, nat), i: nat, j: nat)
    requires j in s.nodes && j in n.nodes && CountOk(s, j) && n.nodes[j].nlink == s.nodes[j].nlink &&
      n.dropping == s.dropping
    requires Refs(n, j) == Refs(s, j) + (if j == i then {r} else {}) && r !in Refs(s, j)
    requires s.pending[i] > 0 && n.pending == s.pending - multiset{i}
    ensures CountOk(n, j)
  {
  }

  /** An inode that is not allocated is named nowhere. */
  lemma Unnamed(s: State, i: nat)
    requires Inv(s) && i !in s.nodes && i != 0
    ensures Refs(s, i) == {} && s.pending[i] == 0 && s.dropping[i] == 0
    ensures forall d, off: nat :: !Names(s, d, off, i)
  {
    forall d, off: nat
      ensures !Names(s, d, off, i)
    {
      if Linked(s, d) && off < |s.nodes[d].entries| {
        assert ShapeOk(s, d) && HomeOk(s, d) && EntryOk(s, d, off);
      }
    }
  }

  /** ialloc for a file or device, counted for the entry to come. */
  lemma FreshKeepsInv(s: State, n: State, i: nat, kind: Kind)
    requires Inv(s) && i !in s.nodes && i != 0 && !kind.Dir?
    requires n == s.(nodes := s.nodes[i := Node(kind, 1, [])], pending := s.pending + multiset{i})
    ensures Inv(n)
  {
    hide CountOk, ShapeOk, HomeOk, EntryOk, Refs;
    Unnamed(s, i);
    assert forall d: nat :: Linked(n, d) <==> Linked(s, d);
    forall j | j in n.nodes
      ensures CountOk(n, j) && ShapeOk(n, j) && HomeOk(n, j)
    {
      assert j != i ==> CountOk(s, j) && ShapeOk(s, j) && HomeOk(s, j);
      FreshNode(s, n, i, kind, j);
    }
    forall d, off: nat | d in n.nodes && off < |n.nodes[d].entries|
      ensures EntryOk(n, d, off)
    {
      assert EntryOk(s, d, off);
      FreshEntry(s, n, i, kind, d, off);
    }
  }

  lemma FreshNode(s: State, n: State, i: nat, kind: Kind, j: nat)
    requires i !in s.nodes && !kind.Dir? && n == s.(nodes := s.nodes[i := Node(kind, 1, [])],
      pending := s.pending + multiset{i})
    requires j in n.nodes && (j != i ==> CountOk(s, j) && ShapeOk(s, j) && HomeOk(s, j))
    requires Refs(s, i) == {} && s.pending[i] == 0 && s.dropping[i] == 0
    requires forall d: nat :: Linked(n, d) <==> Linked(s, d)
    ensures CountOk(n, j) && ShapeOk(n, j) && HomeOk(n, j)
  {
    assert Refs(n, j) == Refs(s, j) by {
      assert forall d, off: nat :: Names(n, d, off, j) <==> Names(s, d, off, j);
    }
    hide Refs, Linked;
  }

  lemma FreshEntry(s: State, n: State, i: nat, kind: Kind, d: nat, off: nat)
    requires i !in s.nodes && !kind.Dir? && n == s.(nodes := s.nodes[i := Node(kind, 1, [])],
      pending := s.pending + multiset{i})
    requires d in s.nodes && off < |s.nodes[d].entries| && EntryOk(s, d, off)
    requires forall e: nat :: Linked(n, e) <==> Linked(s, e)
    ensures EntryOk(n, d, off)
  {
  }

  /** LinkEnd with room for the entry. */
  lemma LinkKeepsInv(s: State, ip: nat, dp: nat, name: Name)
    requires Inv(s) && Enabled(s, LinkEnd(ip, Some(dp), name)) && Linkable(s.nodes, Some(dp), name) && Linked(s, dp)
    ensures Inv(Next(s, LinkEnd(ip, Some(dp), name)))
  {
    hide CountOk, HomeOk, EntryOk, Find, Slot, Placed, Refs;
    var n := Next(s, LinkEnd(ip, Some(dp), name));
    assert ShapeOk(s, dp);
    PlacedAdds(s, n, dp, Entry(ip, name));
    NotADot(s, dp, name);
    hide ShapeOk;
    AddKeepsInv(s, n, dp, Slot(s.nodes[dp].entries, 0), ip, name);
  }

  lemma CreateFileKeepsInv(s: State, dp: nat, name: Name, kind: Kind, ip: nat)
    requires Inv(s) && Enabled(s, Create(dp, name, kind, ip)) && Linked(s, dp) && !kind.Dir?
    ensures Inv(Next(s, Create(dp, name, kind, ip)))
  {
    hide CountOk, ShapeOk, HomeOk, EntryOk, Find, Slot, Placed, Refs;
    var m := s.(nodes := s.nodes[ip := Node(kind, 1, [])], pending := s.pending + multiset{ip});
    FreshKeepsInv(s, m, ip, kind);
    LinkKeepsInv(m, ip, dp, name);
    var n := Next(m, LinkEnd(ip, Some(dp), name));
    assert n.pending == s.pending;
    assert n == Next(s, Create(dp, name, kind, ip));
  }

  // ---- Removed entries --------------------------------------------------------------------

  /** An entry that unlink finds lies after the dots of a linked directory and is counted. */
  lemma Found(s: State, dp: nat, name: Name)
    requires Inv(s) && IsDir(s, dp) && name != "." && name != ".." && Find(s.nodes[dp].entries, name, 0).Some?
    ensures var off := Find(s.nodes[dp].entries, name, 0).value;
      var ip := s.nodes[dp].entries[off].inum;
      && off >= 2 && Linked(s, dp) && ip in s.nodes && ip != ROOT && s.nodes[ip].nlink > 0 && s.nodes[dp].nlink > 0
      && ip != dp && (dp, off) in Refs(s, ip)
  {
    var off := Find(s.nodes[dp].entries, name, 0).value;
    var ip := s.nodes[dp].entries[off].inum;
    assert ShapeOk(s, dp) && EntryOk(s, dp, off) && CountOk(s, ip) && HomeOk(s, dp);
    assert Names(s, dp, off, ip) && (dp, off) in Refs(s, ip);
  }

  /** Entry off of d was cleared. */
  ghost predicate Clears(s: State, n: State, d: nat, off: nat) {
    && d in s.nodes && n.nodes.Keys == s.nodes.Keys && 2 <= off < |s.nodes[d].entries|
    && n.nodes[d].kind == s.nodes[d].kind && n.nodes[d].entries == s.nodes[d].entries[off := Entry(0, "")]
    && (forall j :: j in s.nodes && j != d ==> n.nodes[j] == s.nodes[j])
    && n.pending == s.pending && n.dropping == s.dropping + multiset{s.nodes[d].entries[off].inum}
  }

  lemma ClearedRefs(s: State, n: State, d: nat, off: nat, j: nat)
    requires Clears(s, n, d, off) && Linked(s, d) && j != 0
    requires forall e: nat :: Linked(n, e) <==> Linked(s, e)
    ensures Refs(n, j) == Refs(s, j) - {(d, off)}
    ensures (d, off) in Refs(s, j) ==> j == s.nodes[d].entries[off].inum
  {
  }

  lemma ClearedNode(s: State, n: State, d: nat, off: nat, j: nat)
    requires Clears(s, n, d, off) && j in s.nodes && ShapeOk(s, j) && HomeOk(s, j)
    requires j != s.nodes[d].entries[off].inum || !s.nodes[j].kind.Dir?
    requires forall e: nat :: Linked(n, e) ==> Linked(s, e)
    requires Linked(n, j) && |s.nodes[j].entries| >= 2 ==> Linked(n, s.nodes[j].entries[1].inum)
    requires !Linked(n, j) ==> !Linked(s, j)
    ensures ShapeOk(n, j) && HomeOk(n, j)
  {
    hide Linked;
    forall p, x: nat | NamedIn(s, p, x) && x != s.nodes[d].entries[off].inum
      ensures NamedIn(n, p, x)
    {
      var k :| 2 <= k < |s.nodes[p].entries| && s.nodes[p].entries[k].inum == x;
      assert n.nodes[p].entries[k].inum == x;
    }
  }

  lemma ClearedEntry(s: State, n: State, d: nat, off: nat, e: nat, k: nat)
    requires Clears(s, n, d, off) && e in s.nodes && k < |s.nodes[e].entries| && EntryOk(s, e, k)
    requires forall f: nat :: Linked(n, f) ==> Linked(s, f)
    ensures EntryOk(n, e, k)
  {
  }

  lemma UnlinkFileKeepsInv(s: State, dp: nat, name: Name)
    requires Inv(s) && Enabled(s, Unlink(dp, name))
    requires !s.nodes[s.nodes[dp].entries[Find(s.nodes[dp].entries, name, 0).value].inum].kind.Dir?
    ensures Inv(Next(s, Unlink(dp, name)))
  {
    hide CountOk, ShapeOk, HomeOk, EntryOk, Find, Refs;
    var n, off := Next(s, Unlink(dp, name)), Find(s.nodes[dp].entries, name, 0).value;
    var ip := s.nodes[dp].entries[off].inum;
    Found(s, dp, name);
    assert forall e: nat :: Linked(n, e) <==> Linked(s, e);
    forall j | j in n.nodes
      ensures CountOk(n, j) && ShapeOk(n, j) && HomeOk(n, j)
    {
      assert CountOk(s, j) && ShapeOk(s, j) && HomeOk(s, j);
      LinkedParent(s, j);
      ClearedNode(s, n, dp, off, j);
      ClearedRefs(s, n, dp, off, j);
      ClearedCount(s, n, dp, off, j);
    }
    forall e, k: nat | e in n.nodes && k < |n.nodes[e].entries|
      ensures EntryOk(n, e, k)
    {
      assert EntryOk(s, e, k);
      ClearedEntry(s, n, dp, off, e, k);
    }
  }

  lemma LinkedParent(s: State, j: nat)
    requires j in s.nodes && HomeOk(s, j) && Linked(s, ROOT)
    ensures Linked(s, j) && |s.nodes[j].entries| >= 2 ==> Linked(s, s.nodes[j].entries[1].inum)
  {
  }

  lemma ClearedCount(s: State, n: State, d: nat, off: nat, j: nat)
    requires Clears(s, n, d, off) && j in s.nodes && CountOk(s, j) && n.nodes[j].nlink == s.nodes[j].nlink
    requires Refs(n, j) == Refs(s, j) - {(d, off)} && ((d, off) in Refs(s, j) <==> j == s.nodes[d].entries[off].inum)
    ensures CountOk(n, j)
  {
  }

  // ---- Directories --------------------------------------------------------------------

  /** An empty directory other than root is named by its parent only. */
  lemma EmptyNamedOnce(s: State, d: nat, off: nat, x: nat)
    requires Inv(s) && Linked(s, d) && 2 <= off < |s.nodes[d].entries| && s.nodes[d].entries[off].inum == x && x != 0
    requires IsDir(s, x) && EmptyDir(s.nodes[x].entries)
    ensures Refs(s, x) == {(d, off)} && ParentIs(s, x, d) && x != ROOT && x != d
    ensures forall e: nat :: Linked(s, e) && |s.nodes[e].entries| >= 2 ==> s.nodes[e].entries[1].inum != x
  {
    assert EntryOk(s, d, off) && ShapeOk(s, x) && ShapeOk(s, d) && HomeOk(s, d);
    forall e: nat | Linked(s, e) && |s.nodes[e].entries| >= 2
      ensures s.nodes[e].entries[1].inum != x
    {
      assert HomeOk(s, e);
    }
    forall e, k: nat
      ensures Names(s, e, k, x) <==> e == d && k == off
    {
      if Linked(s, e) && k < |s.nodes[e].entries| {
        assert ShapeOk(s, e) && HomeOk(s, e) && EntryOk(s, e, k);
      }
    }
  }

  /** A linked directory keeps at least one name besides any one child's "..". */
  lemma StaysLinked(s: State, d: nat, x: nat)
    requires Inv(s) && Linked(s, d) && Linked(s, x) && x != ROOT && x != d && ParentIs(s, x, d)
    ensures s.nodes[d].nlink - 1 > s.dropping[d] && (x, 1) in Refs(s, d)
  {
    assert CountOk(s, d) && ShapeOk(s, d) && ShapeOk(s, x) && HomeOk(s, d);
    assert Names(s, x, 1, d);
    var r: (nat, nat);
    if d == ROOT {
      r := (ROOT, 1);
    } else {
      var p := s.nodes[d].entries[1].inum;
      var off: nat :| 2 <= off < |s.nodes[p].entries| && s.nodes[p].entries[off].inum == d;
      r := (p, off);
    }
    assert Names(s, r.0, r.1, d) && r != (x, 1);
    assert Refs(s, d) == (Refs(s, d) - {(x, 1), r}) + {(x, 1), r};
  }

  lemma RemovedRefs(s: State, n: State, d: nat, off: nat, x: nat, j: nat)
    requires Clears(s, n, d, off) && Linked(s, d) && s.nodes[d].entries[off].inum == x && j != 0 && x != d
    requires forall e: nat :: Linked(n, e) <==> Linked(s, e) && e != x
    requires IsDir(s, x) && ShapeOk(s, x) && EmptyDir(s.nodes[x].entries) && ParentIs(s, x, d)
    ensures Refs(n, j) == Refs(s, j) - {(d, off), (x, 1)}
    ensures (d, off) in Refs(s, j) ==> j == x
    ensures (x, 1) in Refs(s, j) ==> j == d
  {
  }

  lemma RemovedCount(s: State, n: State, d: nat, off: nat, x: nat, j: nat)
    requires Clears(s, n, d, off) && s.nodes[d].entries[off].inum == x && x != d && j in s.nodes && CountOk(s, j)
    requires n.nodes[j].nlink == s.nodes[j].nlink - if j == d then 1 else 0
    requires Refs(n, j) == Refs(s, j) - {(d, off), (x, 1)}
    requires (d, off) in Refs(s, j) <==> j == x
    requires (x, 1) in Refs(s, j) <==> j == d
    ensures CountOk(n, j)
  {
  }

  lemma UnlinkDirKeepsInv(s: State, dp: nat, name: Name)
    requires Inv(s) && Enabled(s, Unlink(dp, name))
    requires s.nodes[s.nodes[dp].entries[Find(s.nodes[dp].entries, name, 0).value].inum].kind.Dir?
    ensures Inv(Next(s, Unlink(dp, name)))
  {
    hide CountOk, ShapeOk, HomeOk, EntryOk, Find, Refs;
    var n, off := Next(s, Unlink(dp, name)), Find(s.nodes[dp].entries, name, 0).value;
    var ip := s.nodes[dp].entries[off].inum;
    Found(s, dp, name);
    EmptyNamedOnce(s, dp, off, ip);
    NamedIsLinked(s, dp, off, ip);
    StaysLinked(s, dp, ip);
    assert forall e: nat :: Linked(n, e) <==> Linked(s, e) && e != ip;
    assert ShapeOk(s, ip);
    forall j | j in n.nodes
      ensures CountOk(n, j) && ShapeOk(n, j) && HomeOk(n, j)
    {
      assert CountOk(s, j) && ShapeOk(s, j) && HomeOk(s, j);
      RemovedRefs(s, n, dp, off, ip, j);
      RemovedCount(s, n, dp, off, ip, j);
      if j == ip {
        EmptiedNode(s, n, ip);
      } else {
        LinkedParent(s, j);
        ClearedNode(s, n, dp, off, j);
      }
    }
    forall e, k: nat | e in n.nodes && k < |n.nodes[e].entries|
      ensures EntryOk(n, e, k)
    {
      assert EntryOk(s, e, k);
      ClearedEntry(s, n, dp, off, e, k);
    }
  }

  lemma NamedIsLinked(s: State, d: nat, off: nat, x: nat)
    requires Inv(s) && IsDir(s, x) && Refs(s, x) == {(d, off)}
    ensures Linked(s, x) && s.nodes[x].nlink == s.dropping[x] + 1
  {
    hide Refs;
    assert CountOk(s, x);
  }

  lemma EmptiedNode(s: State, n: State, x: nat)
    requires x in s.nodes && x in n.nodes && n.nodes[x] == s.nodes[x] && ShapeOk(s, x) &&
      EmptyDir(s.nodes[x].entries) && !Linked(n, x)
    ensures ShapeOk(n, x) && HomeOk(n, x)
  {
  }

  /** A new directory x in d, entered at k: its own dots, one more link for d. */
  ghost predicate DirAdded(s: State, n: State, d: nat, k: nat, x: nat, name: Name) {
    && Inv(s) && Linked(s, d) && x !in s.nodes && x != 0 && name != "." && name != ".."
    && Adds(s, n, d, k, Entry(x, name))
    && n.nodes.Keys == s.nodes.Keys + {x} && n.nodes[x] == Node(Dir, 1, Dots(x, d))
    && n.nodes[d].kind == s.nodes[d].kind && n.nodes[d].nlink == s.nodes[d].nlink + 1
    && (forall j :: j in s.nodes && j != d ==> n.nodes[j] == s.nodes[j])
    && n.pending == s.pending && n.dropping == s.dropping
  }

  lemma DirAddedLinked(s: State, n: State, d: nat, k: nat, x: nat, name: Name)
    requires DirAdded(s, n, d, k, x, name)
    ensures forall e: nat :: Linked(n, e) <==> Linked(s, e) || e == x
    ensures x != d && s.pending[x] == 0 && s.dropping[x] == 0 && IsDir(s, ROOT) && 0 !in s.nodes
    ensures Refs(s, x) == {} && forall e, off: nat :: !Names(s, e, off, x)
  {
    Unnamed(s, x);
  }

  lemma DirAddedRefs(s: State, n: State, d: nat, k: nat, x: nat, name: Name, j: nat)
    requires DirAdded(s, n, d, k, x, name) && j in n.nodes
    ensures Refs(n, j) == Refs(s, j) + if j == x then {(d, k)} else if j == d then {(x, 1)} else {}
    ensures (x, 1) !in Refs(s, j)
  {
    DirAddedLinked(s, n, d, k, x, name);
    hide Inv;
    forall e, off: nat
      ensures Names(n, e, off, j) <==>
        Names(s, e, off, j) || (j == x && e == d && off == k) || (j == d && e == x && off == 1)
    {
    }
  }

  lemma DirAddedNode(s: State, n: State, d: nat, k: nat, x: nat, name: Name, j: nat)
    requires DirAdded(s, n, d, k, x, name) && j in n.nodes && (j != x ==> ShapeOk(s, j) && HomeOk(s, j))
    ensures ShapeOk(n, j) && HomeOk(n, j)
  {
    DirAddedLinked(s, n, d, k, x, name);
    hide Inv, Linked;
    forall p, y: nat | NamedIn(s, p, y) && y != 0
      ensures NamedIn(n, p, y)
    {
      var off :| 2 <= off < |s.nodes[p].entries| && s.nodes[p].entries[off].inum == y;
      assert n.nodes[p].entries[off].inum == y;
    }
    assert NamedIn(n, d, x) by {
      assert n.nodes[d].entries[k].inum == x;
    }
  }

  lemma DirAddedEntry(s: State, n: State, d: nat, k: nat, x: nat, name: Name, e: nat, off: nat)
    requires DirAdded(s, n, d, k, x, name) && e in n.nodes && off < |n.nodes[e].entries|
    requires e in s.nodes && off < |s.nodes[e].entries| ==> EntryOk(s, e, off)
    ensures EntryOk(n, e, off)
  {
    DirAddedLinked(s, n, d, k, x, name);
    hide Inv;
    forall i: nat | i < |s.nodes[d].entries|
      ensures s.nodes[d].entries[i].inum != x
    {
      assert !Names(s, d, i, x);
    }
    hide Linked;
  }

  lemma DirAddedCount(s: State, n: State, d: nat, k: nat, x: nat, name: Name, j: nat)
    requires DirAdded(s, n, d, k, x, name) && j in n.nodes && (j != x ==> CountOk(s, j))
    ensures CountOk(n, j)
  {
    DirAddedLinked(s, n, d, k, x, name);
    DirAddedRefs(s, n, d, k, x, name, j);
    hide Inv, Refs, Linked;
    if j == d {
      assert Refs(n, j) == Refs(s, j) + {(x, 1)};
    } else if j == x {
      assert Refs(n, j) == {(d, k)};
    } else {
      assert Refs(n, j) == Refs(s, j);
    }
  }

  lemma CreateDirKeepsInv(s: State, dp: nat, name: Name, ip: nat)
    requires Inv(s) && Enabled(s, Create(dp, name, Dir, ip)) && Linked(s, dp)
    ensures Inv(Next(s, Create(dp, name, Dir, ip)))
  {
    hide CountOk, HomeOk, EntryOk, Find, Slot, Placed, Refs;
    var n, k := Next(s, Create(dp, name, Dir, ip)), Slot(s.nodes[dp].entries, 0);
    assert ShapeOk(s, dp);
    PlacedAdds(s, n, dp, Entry(ip, name));
    NotADot(s, dp, name);
    hide ShapeOk;
    assert DirAdded(s, n, dp, k, ip, name);
    DirAddedLinked(s, n, dp, k, ip, name);
    forall j | j in n.nodes
      ensures CountOk(n, j) && ShapeOk(n, j) && HomeOk(n, j)
    {
      assert j != ip ==> CountOk(s, j) && ShapeOk(s, j) && HomeOk(s, j);
      DirAddedNode(s, n, dp, k, ip, name, j);
      DirAddedCount(s, n, dp, k, ip, name, j);
    }
    forall e, off: nat | e in n.nodes && off < |n.nodes[e].entries|
      ensures EntryOk(n, e, off)
    {
      assert e in s.nodes && off < |s.nodes[e].entries| ==> EntryOk(s, e, off);
      DirAddedEntry(s, n, dp, k, ip, name, e, off);
    }
  }

  lemma FreeKeepsInv(s: State, ip: nat)
    requires Inv(s) && Enabled(s, Free(ip))
    ensures Inv(Next(s, Free(ip)))
  {
    hide ShapeOk, HomeOk, EntryOk, Refs;
    var n := Next(s, Free(ip));
    assert CountOk(s, ip);
    assert Refs(s, ip) == {};
    NotNamed(s, ip);
    assert forall e: nat :: Linked(n, e) <==> Linked(s, e);
    hide CountOk;
    forall j | j in n.nodes
      ensures CountOk(n, j) && ShapeOk(n, j) && HomeOk(n, j)
    {
      assert CountOk(s, j) && ShapeOk(s, j) && HomeOk(s, j);
      FreedNode(s, n, ip, j);
    }
    forall e, off: nat | e in n.nodes && off < |n.nodes[e].entries|
      ensures EntryOk(n, e, off)
    {
      assert EntryOk(s, e, off) && !Names(s, e, off, ip);
      FreedEntry(s, n, ip, e, off);
    }
  }

  lemma FreedNode(s: State, n: State, ip: nat, j: nat)
    requires n == s.(nodes := s.nodes - {ip}) && j in n.nodes && CountOk(s, j) && ShapeOk(s, j) && HomeOk(s, j)
    requires forall e: nat :: Linked(n, e) <==> Linked(s, e)
    ensures CountOk(n, j) && ShapeOk(n, j) && HomeOk(n, j)
  {
    assert Refs(n, j) == Refs(s, j) by {
      assert forall e, off: nat :: Names(n, e, off, j) <==> Names(s, e, off, j);
    }
    hide Refs;
  }

  lemma FreedEntry(s: State, n: State, ip: nat, e: nat, off: nat)
    requires n == s.(nodes := s.nodes - {ip}) && e in n.nodes && off < |n.nodes[e].entries| && EntryOk(s, e, off)
    requires !(Linked(s, e) && s.nodes[e].entries[off].inum == ip) && forall f: nat :: Linked(n, f) <==> Linked(s, f)
    ensures EntryOk(n, e, off)
  {
  }

  lemma NotNamed(s: State, i: nat)
    requires Refs(s, i) == {}
    ensures forall e, off: nat :: !Names(s, e, off, i)
  {
    forall e: nat, off: nat
      ensures !Names(s, e, off, i)
    {
      assert Names(s, e, off, i) ==> (e, off) in Refs(s, i);
    }
  }

  lemma StepKeepsInv(s: State, e: Event)
    requires Inv(s) && Enabled(s, e) && Orderly(s, e)
    ensures Inv(Next(s, e))
  {
    hide Inv, Find, Placed;
    match e
    case LinkBegin(_) => BumpKeepsInv(s, e);
    case LinkEnd(ip, parent, name) =>
      if Linkable(s.nodes, parent, name) {
        assert parent == Some(parent.value);
        LinkKeepsInv(s, ip, parent.value, name);
      } else {
        BumpKeepsInv(s, e);
      }
    case Unlink(dp, name) =>
      if s.nodes[s.nodes[dp].entries[Find(s.nodes[dp].entries, name, 0).value].inum].kind.Dir? {
        UnlinkDirKeepsInv(s, dp, name);
      } else {
        UnlinkFileKeepsInv(s, dp, name);
      }
    case Drop(_) => BumpKeepsInv(s, e);
    case Create(dp, name, kind, ip) =>
      if kind.Dir? {
        CreateDirKeepsInv(s, dp, name, ip);
      } else {
        CreateFileKeepsInv(s, dp, name, kind, ip);
      }
    case Free(ip) => FreeKeepsInv(s, ip);
  }

  // ---- Entries in removed directories --------------------------------------------------------

  /** A directory that is not linked is named nowhere. */
  lemma NoNameLeft(s: State, d: nat)
    requires Inv(s) && IsDir(s, d) && !Linked(s, d)
    ensures Refs(s, d) == {} && d != ROOT && forall e, off: nat :: !Names(s, e, off, d)
  {
    assert CountOk(s, d);
    assert Refs(s, d) == {};
    NotNamed(s, d);
  }

  /** An entry in a directory that is not linked breaks its shape. */
  lemma StrayEntry(s: State, n: State, d: nat, e: Entry)
    requires Inv(s) && IsDir(s, d) && !Linked(n, d) && e.inum != 0
    requires IsDir(n, d) && n.nodes[d].entries == Placed(s.nodes[d].entries, e)
    ensures !ShapeOk(n, d)
  {
    assert ShapeOk(s, d);
    PlacedAdds(s, n, d, e);
  }

  /** A directory made in one that is not linked makes it count as linked, and no directory names it. */
  lemma StrayDir(s: State, dp: nat, name: Name, ip: nat)
    requires Inv(s) && Enabled(s, Create(dp, name, Dir, ip)) && !Linked(s, dp)
    ensures IsDir(Next(s, Create(dp, name, Dir, ip)), dp) && !HomeOk(Next(s, Create(dp, name, Dir, ip)), dp)
  {
    hide Find;
    var n := Next(s, Create(dp, name, Dir, ip));
    NoNameLeft(s, dp);
    assert CountOk(s, dp) && ShapeOk(s, dp);
    PlacedAdds(s, n, dp, Entry(ip, name));
    hide Placed, Slot;
    var p := n.nodes[dp].entries[1].inum;
    if Linked(n, p) && p != dp {
      forall off: nat | 2 <= off < |n.nodes[p].entries|
        ensures n.nodes[p].entries[off].inum != dp
      {
        assert !Names(s, p, off, dp);
      }
    }
  }

  /** A step keeps the invariant exactly when it makes no entry in a removed directory. */
  lemma StepKeepsInvIff(s: State, e: Event)
    requires Inv(s) && Enabled(s, e)
    ensures Inv(Next(s, e)) <==> Orderly(s, e)
  {
    hide Find, Placed, CountOk, HomeOk, ShapeOk, EntryOk, Refs;
    if Orderly(s, e) {
      StepKeepsInv(s, e);
    } else if e.LinkEnd? {
      StrayEntry(s, Next(s, e), e.parent.value, Entry(e.ip, e.name));
    } else if e.kind.Dir? {
      StrayDir(s, e.dp, e.name, e.ip);
    } else {
      StrayEntry(s, Next(s, e), e.dp, Entry(e.ip, e.name));
    }
  }
}
