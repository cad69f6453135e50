/** Runs of the log over crashes and reboots. A crash may follow any single block
    write of a commit or of a recovery; it loses everything but the disk. */
module LogCrash {
  import opened Blocks
  import opened Wrappers
  import opened LogSpec

  /** `up`: the kernel has finished recovery and serves transactions. */
  datatype State = State(disk: Disk, up: bool)

  /** A transaction holds the log_write calls of the operations it groups. `crash` is
      None for an event that completes, Some(k) for one that stops after k block writes. */
  datatype Event =
    | Transaction(logged: seq<Write>, crash: Option<nat>)
    | Boot(crash: Option<nat>)

  function Done(ws: seq<Write>, crash: Option<nat>): seq<Write> {
    if crash.None? || |ws| < crash.value then ws else ws[..crash.value]
  }

  predicate Step(L: Layout, s: State, e: Event, t: State) {
    match e
    case Transaction(logged, crash) =>
      && s.up && |s.disk| == L.diskSize
      && AllHome(L, logged) && Loggable(L, Absorb(logged))
      && t.disk == Apply(s.disk, Done(CommitWrites(L, s.disk, Absorb(logged)), crash))
      && t.up == crash.None?
    case Boot(crash) =>
      && !s.up && ValidHeader(L, s.disk)
      && t.disk == Apply(s.disk, Done(BootWrites(L, s.disk), crash))
      && t.up == crash.None?
  }

  /** The gate turns away a log that holds a committed transaction. */
  predicate Refused(L: Layout, s: State, e: Event) {
    e.Boot? && ValidHeader(L, s.disk) && !GatePasses(L, s.disk) && DiskTxn(L, s.disk) != []
  }

  /** Consecutive states are linked by the events, and no boot refuses a committed log. */
  predicate IsRun(L: Layout, states: seq<State>, events: seq<Event>) {
    && |states| == |events| + 1
    && (events == [] ||
       var k := |events| - 1;
       && IsRun(L, states[..k + 1], events[..k])
       && Step(L, states[k], events[k], states[k + 1])
       && !Refused(L, states[k], events[k]))
  }

  lemma {:induction false} RunPrefix(L: Layout, states: seq<State>, events: seq<Event>, i: nat)
    requires IsRun(L, states, events) && i <= |events|
    ensures IsRun(L, states[..i + 1], events[..i])
  {
    hide Step, Refused;
    if i == |events| {
      assert states[..i + 1] == states && events[..i] == events;
    } else {
      var k := |events| - 1;
      RunPrefix(L, states[..k + 1], events[..k], i);
      assert states[..k + 1][..i + 1] == states[..i + 1];
      assert events[..k][..i] == events[..i];
    }
  }

  /** The event got past the commit point, the first write of the header. */
  predicate Committed(e: Event) {
    e.Transaction? && (e.crash.None? || |Absorb(e.logged)| + 2 <= e.crash.value)
  }

  /** The reference: every committed transaction's log_write calls, in order, and nothing else. */
  function Durable(d: Disk, events: seq<Event>): (r: Disk)
    ensures |r| == |d|
  {
    if events == [] then d
    else
      var prev, e := Durable(d, events[..|events| - 1]), events[|events| - 1];
      if Committed(e) then Apply(prev, e.logged) else prev
  }

  /** The disk's home blocks, with its log replayed over them, are those of `want`. */
  ghost predicate ReplaysTo(L: Layout, d: Disk, want: Disk) {
    && ValidHeader(L, d) && |want| == |d|
    && forall b: nat :: L.Home(b) ==> Apply(d, DiskTxn(L, d))[b] == want[b]
  }

  ghost predicate HomeAgrees(L: Layout, d: Disk, e: Disk) {
    |d| == |e| == L.diskSize && forall b: nat :: L.Home(b) ==> d[b] == e[b]
  }

  // ---- What the disk looks like part-way through a commit --------------------

  lemma {:induction false} AfterLogWrites(L: Layout, d: Disk, txn: seq<Write>, j: nat)
    requires Loggable(L, txn) && |d| == L.diskSize && j <= |txn|
    ensures forall b: nat :: b < |d| ==>
      Apply(d, LogWrites(L, txn)[..j])[b] == if L.start + 2 <= b < L.start + 2 + j then txn[b - L.start - 2].data
        else d[b]
  {
    if j > 0 {
      AfterLogWrites(L, d, txn, j - 1);
      assert LogWrites(L, txn)[..j][..j - 1] == LogWrites(L, txn)[..j - 1];
    }
  }

  lemma OneMoreWrite(d: Disk, ws: seq<Write>, w: Write)
    requires w.blockno < |d|
    ensures Apply(d, ws + [w]) == Apply(d, ws)[w.blockno := w.data]
  {
  }

  lemma CommitStart(L: Layout, d: Disk, txn: seq<Write>, k: nat)
    requires Loggable(L, txn) && |d| == L.diskSize && txn != [] && k <= |txn| + 1
    ensures CommitWrites(L, d, txn)[..k] ==
      if k <= |txn| then LogWrites(L, txn)[..k]
      else LogWrites(L, txn)[..|txn|] + [Write(L.start, Put32(d[L.start], 0, Checksum(L, d, txn)))]
  {
  }

  /** Before the commit point the log still reads as empty and no home block has changed. */
  lemma BeforeCommitPoint(L: Layout, d: Disk, txn: seq<Write>, k: nat)
    requires Loggable(L, txn) && |d| == L.diskSize && txn != [] && k <= |txn| + 1
    ensures var c := Apply(d, CommitWrites(L, d, txn)[..k]);
      c[L.start + 1] == d[L.start + 1] && HomeAgrees(L, c, d)
  {
    hide CommitWrites, LogWrites, PutHeader, Put32, Checksum, Apply;
    CommitStart(L, d, txn, k);
    AfterLogWrites(L, d, txn, if k <= |txn| then k else |txn|);
    if |txn| < k {
      OneMoreWrite(d, LogWrites(L, txn)[..|txn|], Write(L.start, Put32(d[L.start], 0, Checksum(L, d, txn))));
    }
  }

  /** The log blocks on `c` hold the contents of `txn`. */
  predicate LogHolds(L: Layout, c: Disk, txn: seq<Write>) {
    L.start + 2 + |txn| <= |c| && forall i :: 0 <= i < |txn| ==> c[L.start + 2 + i] == txn[i].data
  }

  /** What is on disk once the header names the transaction: `c` is the disk, `d` the disk
      before the commit, and the first j blocks of the transaction are at home. */
  ghost predicate Installing(L: Layout, d: Disk, txn: seq<Write>, j: nat, c: Disk)
    requires Loggable(L, txn) && |d| == L.diskSize && txn != [] && j <= |txn|
  {
    && |c| == |d|
    && c[L.start + 1] == PutHeader(d[L.start + 1], txn)
    && Get32(c[L.start], 0) == Checksum(L, d, txn)
    && HomeAgrees(L, c, Apply(d, txn[..j]))
    && LogHolds(L, c, txn)
  }

  lemma TwoMoreWrites(d: Disk, ws: seq<Write>, v: Write, w: Write)
    requires v.blockno < |d| && w.blockno < |d|
    ensures Apply(d, ws + [v, w]) == Apply(d, ws)[v.blockno := v.data][w.blockno := w.data]
  {
    assert (ws + [v, w])[..|ws| + 1] == ws + [v];
    assert (ws + [v])[..|ws|] == ws;
  }

  lemma CommitHead(L: Layout, d: Disk, txn: seq<Write>)
    requires Loggable(L, txn) && |d| == L.diskSize && txn != []
    ensures CommitWrites(L, d, txn)[..|txn| + 2] == LogWrites(L, txn) +
      [Write(L.start, Put32(d[L.start], 0, Checksum(L, d, txn))), Write(L.start + 1, PutHeader(d[L.start + 1], txn))]
  {
  }

  lemma LogWritesDone(L: Layout, d: Disk, txn: seq<Write>)
    requires Loggable(L, txn) && |d| == L.diskSize
    ensures var c := Apply(d, LogWrites(L, txn));
      c[L.start] == d[L.start] && c[L.start + 1] == d[L.start + 1] && HomeAgrees(L, c, d) && LogHolds(L, c, txn)
  {
    hide Apply, LogWrites;
    assert LogWrites(L, txn)[..|txn|] == LogWrites(L, txn);
    AfterLogWrites(L, d, txn, |txn|);
  }

  lemma LoggedAndHome(L: Layout, d: Disk, txn: seq<Write>, sum: Block, header: Block)
    requires Loggable(L, txn) && |d| == L.diskSize
    ensures var c := Apply(d, LogWrites(L, txn))[L.start := sum][L.start + 1 := header];
      HomeAgrees(L, c, d) && LogHolds(L, c, txn)
  {
    hide Apply, LogWrites;
    LogWritesDone(L, d, txn);
    FirstLogBlocks(L, Apply(d, LogWrites(L, txn)), d, txn, sum, header);
  }

  /** The first two blocks of the log are neither home blocks nor logged ones. */
  lemma FirstLogBlocks(L: Layout, c: Disk, d: Disk, txn: seq<Write>, sum: Block, header: Block)
    requires Loggable(L, txn) && HomeAgrees(L, c, d) && LogHolds(L, c, txn)
    ensures var e := c[L.start := sum][L.start + 1 := header]; HomeAgrees(L, e, d) && LogHolds(L, e, txn)
  {
  }

  lemma CommitPointDisk(L: Layout, d: Disk, txn: seq<Write>, sum: Block, header: Block)
    requires Loggable(L, txn) && |d| == L.diskSize && txn != []
    requires sum == Put32(d[L.start], 0, Checksum(L, d, txn)) && header == PutHeader(d[L.start + 1], txn)
    ensures Apply(d, CommitWrites(L, d, txn)[..|txn| + 2]) ==
      Apply(d, LogWrites(L, txn))[L.start := sum][L.start + 1 := header]
  {
    hide Apply, CommitWrites, PutHeader, Put32, Checksum, LogWrites;
    CommitHead(L, d, txn);
    TwoMoreWrites(d, LogWrites(L, txn), Write(L.start, sum), Write(L.start + 1, header));
  }

  /** The disk right after the commit point. */
  lemma AtCommitPoint(L: Layout, d: Disk, txn: seq<Write>)
    requires Loggable(L, txn) && |d| == L.diskSize && txn != []
    ensures Installing(L, d, txn, 0, Apply(d, CommitWrites(L, d, txn)[..|txn| + 2]))
  {
    hide Apply, CommitWrites, PutHeader, Put32, Get32, Checksum, LogWrites, HomeAgrees, LogHolds;
    var sum, header := Put32(d[L.start], 0, Checksum(L, d, txn)), PutHeader(d[L.start + 1], txn);
    CommitPointDisk(L, d, txn, sum, header);
    LoggedAndHome(L, d, txn, sum, header);
    WordRoundTrip(d[L.start], 0, Checksum(L, d, txn));
    assert Apply(d, txn[..0]) == d by {
      assert txn[..0] == [];
      NoWrites(L, d);
    }
  }

  lemma LogAreaFrame(L: Layout, d: Disk, txn: seq<Write>, j: nat)
    requires Loggable(L, txn) && |d| == L.diskSize && j <= |txn|
    ensures forall b: nat :: b < |d| && !L.Home(b) ==> Apply(d, txn[..j])[b] == d[b]
  {
    forall b: nat | b < |d| && !L.Home(b)
      ensures Apply(d, txn[..j])[b] == d[b]
    {
      ApplyFrame(d, txn[..j], b);
    }
  }

  lemma InstallMore(L: Layout, d: Disk, txn: seq<Write>, j: nat, c: Disk)
    requires Loggable(L, txn) && |d| == L.diskSize && txn != [] && j <= |txn|
    requires Installing(L, d, txn, 0, c)
    ensures Installing(L, d, txn, j, Apply(c, txn[..j]))
  {
    LogAreaFrame(L, c, txn, j);
    forall b: nat | L.Home(b)
      ensures Apply(c, txn[..j])[b] == Apply(d, txn[..j])[b]
    {
      ApplyAgree(c, d, txn[..j], b);
    }
  }

  lemma HeaderNamesTxn(L: Layout, h: Block, txn: seq<Write>)
    requires Loggable(L, txn)
    ensures HeaderFits(L, PutHeader(h, txn)) && HeaderN(PutHeader(h, txn)) == |txn|
  {
    HeaderRoundTrip(h, txn);
    forall i | 0 <= i < |txn|
      ensures L.Home(HeaderEntry(PutHeader(h, txn), i))
    {
      assert L.Home(txn[i].blockno);
    }
  }

  lemma ReadBack(L: Layout, c: Disk, txn: seq<Write>)
    requires ValidHeader(L, c) && HeaderN(c[L.start + 1]) == |txn|
    requires forall i :: 0 <= i < |txn| ==> HeaderEntry(c[L.start + 1], i) == txn[i].blockno
    requires LogHolds(L, c, txn)
    ensures DiskTxn(L, c) == txn
  {
  }

  lemma InstallingReads(L: Layout, d: Disk, txn: seq<Write>, j: nat, c: Disk)
    requires Loggable(L, txn) && |d| == L.diskSize && txn != [] && j <= |txn|
    requires Installing(L, d, txn, j, c)
    ensures ValidHeader(L, c) && DiskTxn(L, c) == txn
  {
    HeaderNamesTxn(L, d[L.start + 1], txn);
    HeaderRoundTrip(d[L.start + 1], txn);
    ReadBack(L, c, txn);
  }

  lemma CommitSplit(L: Layout, d: Disk, txn: seq<Write>, j: nat)
    requires Loggable(L, txn) && |d| == L.diskSize && txn != [] && j <= |txn|
    ensures CommitWrites(L, d, txn)[..|txn| + 2 + j] == CommitWrites(L, d, txn)[..|txn| + 2] + txn[..j]
  {
  }

  /** After the commit point and before the log is emptied, the log on disk describes the
      whole transaction and the first k - n - 2 of its blocks are at home. */
  lemma WhileInstalling(L: Layout, d: Disk, txn: seq<Write>, k: nat)
    requires Loggable(L, txn) && |d| == L.diskSize && txn != []
    requires |txn| + 2 <= k <= 2 * |txn| + 2
    ensures Installing(L, d, txn, k - |txn| - 2, Apply(d, CommitWrites(L, d, txn)[..k]))
  {
    hide Apply, CommitWrites, Installing;
    var j, head := k - |txn| - 2, CommitWrites(L, d, txn)[..|txn| + 2];
    AtCommitPoint(L, d, txn);
    CommitSplit(L, d, txn, j);
    ApplyAppend(d, head, txn[..j]);
    InstallMore(L, d, txn, j, Apply(d, head));
  }

  lemma EmptiedLog(L: Layout, d: Disk, h: Block)
    requires L.Valid() && |d| == L.diskSize
    ensures var c := Apply(d, [Write(L.start + 1, PutHeader(h, []))]);
      ValidHeader(L, c) && DiskTxn(L, c) == [] && HomeAgrees(L, c, d)
  {
  }

  lemma AfterCommit(L: Layout, d: Disk, txn: seq<Write>)
    requires Loggable(L, txn) && |d| == L.diskSize && txn != []
    ensures var c := Apply(d, CommitWrites(L, d, txn));
      ValidHeader(L, c) && DiskTxn(L, c) == [] && HomeAgrees(L, c, Apply(d, txn))
  {
    hide Apply, PutHeader;
    var n, ws := |txn|, CommitWrites(L, d, txn);
    WhileInstalling(L, d, txn, 2 * n + 2);
    assert txn[..n] == txn;
    assert ws == ws[..2 * n + 2] + ws[2 * n + 2..];
    ApplyAppend(d, ws[..2 * n + 2], ws[2 * n + 2..]);
    EmptiedLog(L, Apply(d, ws[..2 * n + 2]), PutHeader(d[L.start + 1], txn));
  }

  // ---- The invariant of every run --------------------------------------------

  ghost predicate Inv(L: Layout, s: State, want: Disk) {
    ReplaysTo(L, s.disk, want) && (s.up ==> DiskTxn(L, s.disk) == [])
  }

  lemma EmptyLogIsHome(L: Layout, d: Disk, want: Disk)
    requires ValidHeader(L, d) && DiskTxn(L, d) == []
    ensures ReplaysTo(L, d, want) <==> HomeAgrees(L, d, want)
  {
  }

  /** The effect of the logged calls on the reference and of the recorded transaction on the
      disk agree, whenever the reference and the disk did. */
  lemma SameEffect(L: Layout, d: Disk, want: Disk, logged: seq<Write>)
    requires HomeAgrees(L, d, want) && AllHome(L, logged)
    ensures HomeAgrees(L, Apply(d, Absorb(logged)), Apply(want, logged))
  {
    AbsorbKeepsEffect(L, d, logged);
    forall b: nat | L.Home(b)
      ensures Apply(d, logged)[b] == Apply(want, logged)[b]
    {
      ApplyAgree(d, want, logged, b);
    }
  }

  lemma NoWrites(L: Layout, d: Disk)
    requires Loggable(L, []) && |d| == L.diskSize
    ensures CommitWrites(L, d, []) == [] && Apply(d, []) == d
  {
  }

  lemma InstallingReplays(L: Layout, d: Disk, txn: seq<Write>, j: nat, c: Disk, want: Disk)
    requires Loggable(L, txn) && |d| == L.diskSize && txn != [] && j <= |txn|
    requires Installing(L, d, txn, j, c) && HomeAgrees(L, Apply(d, txn), want)
    ensures ReplaysTo(L, c, want)
  {
    hide Apply, PutHeader, Checksum;
    InstallingReads(L, d, txn, j, c);
    ReplayIsIdempotent(d, txn, j);
    forall b: nat | L.Home(b)
      ensures Apply(c, txn)[b] == want[b]
    {
      ApplyAgree(c, Apply(d, txn[..j]), txn, b);
    }
  }

  lemma TransactionKeepsInv(L: Layout, s: State, e: Event, t: State, want: Disk)
    requires Inv(L, s, want) && e.Transaction? && Step(L, s, e, t)
    ensures Inv(L, t, if Committed(e) then Apply(want, e.logged) else want)
  {
    hide Apply, CommitWrites, Absorb, Installing;
    var d, txn := s.disk, Absorb(e.logged);
    var ws := CommitWrites(L, d, txn);
    var k, n := |Done(ws, e.crash)|, |txn|;
    assert Done(ws, e.crash) == ws[..k];
    EmptyLogIsHome(L, d, want);
    SameEffect(L, d, want, e.logged);
    if txn == [] {
      NoWrites(L, d);
      EmptyLogIsHome(L, d, Apply(want, e.logged));
    } else if k <= n + 1 {
      BeforeCommitPoint(L, d, txn, k);
      EmptyLogIsHome(L, t.disk, want);
    } else if k <= 2 * n + 2 {
      WhileInstalling(L, d, txn, k);
      InstallingReplays(L, d, txn, k - n - 2, t.disk, Apply(want, e.logged));
    } else {
      assert ws[..k] == ws;
      AfterCommit(L, d, txn);
      EmptyLogIsHome(L, t.disk, Apply(want, e.logged));
    }
  }

  lemma BootKeepsInv(L: Layout, s: State, e: Event, t: State, want: Disk)
    requires Inv(L, s, want) && e.Boot? && Step(L, s, e, t) && !Refused(L, s, e)
    ensures Inv(L, t, want)
  {
    hide Apply, PutHeader;
    var d, txn := s.disk, DiskTxn(L, s.disk);
    var ws := BootWrites(L, d);
    var done := Done(ws, e.crash);
    var k, n := |done|, |txn|;
    assert done == ws[..k];
    if k <= n {
      assert ws[..k] == txn[..k];
      LogAreaFrame(L, d, txn, k);
      assert DiskTxn(L, t.disk) == txn;
      ReplayIsIdempotent(d, txn, k);
    } else {
      assert ws[..k] == txn + [Write(L.start + 1, PutHeader(d[L.start + 1], []))];
      ApplyAppend(d, txn, [Write(L.start + 1, PutHeader(d[L.start + 1], []))]);
      EmptiedLog(L, Apply(d, txn), d[L.start + 1]);
      EmptyLogIsHome(L, t.disk, want);
    }
  }

  lemma StepKeepsInv(L: Layout, s: State, e: Event, t: State, want: Disk)
    requires Inv(L, s, want) && Step(L, s, e, t) && !Refused(L, s, e)
    ensures Inv(L, t, if Committed(e) then Apply(want, e.logged) else want)
  {
    hide Apply, CommitWrites, BootWrites;
    if e.Transaction? {
      TransactionKeepsInv(L, s, e, t, want);
    } else {
      BootKeepsInv(L, s, e, t, want);
    }
  }

  lemma {:induction false} RunKeepsInv(L: Layout, states: seq<State>, events: seq<Event>)
    requires IsRun(L, states, events)
    requires ValidHeader(L, states[0].disk) && DiskTxn(L, states[0].disk) == []
    ensures Inv(L, states[|events|], Durable(states[0].disk, events))
  {
    var d := states[0].disk;
    if events == [] {
      EmptyLogIsHome(L, d, d);
    } else {
      var k := |events| - 1;
      RunKeepsInv(L, states[..k + 1], events[..k]);
      StepKeepsInv(L, states[k], events[k], states[k + 1], Durable(d, events[..k]));
    }
  }

  /** Crash atomicity. From a disk with an empty log (the image mkfs builds), after any run of
      transactions, crashes at any block write, and boots of which none refuses a committed
      log: the log stays readable, a running kernel sees exactly the committed transactions
      in the home blocks, and a crashed disk holds them once its log is replayed. */
  lemma CrashAtomicity(L: Layout, states: seq<State>, events: seq<Event>, i: nat)
    requires IsRun(L, states, events) && i <= |events|
    requires ValidHeader(L, states[0].disk) && DiskTxn(L, states[0].disk) == []
    ensures ReplaysTo(L, states[i].disk, Durable(states[0].disk, events[..i]))
    ensures states[i].up ==> HomeAgrees(L, states[i].disk, Durable(states[0].disk, events[..i]))
  {
    RunPrefix(L, states, events, i);
    RunKeepsInv(L, states[..i + 1], events[..i]);
    if states[i].up {
      EmptyLogIsHome(L, states[i].disk, Durable(states[0].disk, events[..i]));
    }
  }

  // ---- When the gate lets a committed transaction through ----------------------

  /** A crash between the commit point and the emptying of the header: the next boot
      reinstalls the transaction exactly when the checksum stored by the commit is 0, and
      then the whole transaction is at home; otherwise the boot writes nothing and leaves
      the first k - n - 2 blocks of the transaction at home, the rest as they were. */
  lemma ExactRecovery(L: Layout, d: Disk, txn: seq<Write>, k: nat)
    requires Loggable(L, txn) && |d| == L.diskSize && txn != []
    requires |txn| + 2 <= k <= 2 * |txn| + 2
    ensures var c := Apply(d, CommitWrites(L, d, txn)[..k]);
      && ValidHeader(L, c)
      && (BootWrites(L, c) != [] <==> BlockSums(Summed(L, d, txn)) % BSIZE == 0)
      && HomeAgrees(L, Apply(c, BootWrites(L, c)),
           Apply(d, if BlockSums(Summed(L, d, txn)) % BSIZE == 0 then txn else txn[..k - |txn| - 2]))
  {
    hide Apply, CommitWrites, PutHeader, BlockSums, Installing, ReplaysTo, HomeAgrees;
    var c, j := Apply(d, CommitWrites(L, d, txn)[..k]), k - |txn| - 2;
    WhileInstalling(L, d, txn, k);
    InstallingReads(L, d, txn, j, c);
    InstallingBoots(L, d, txn, j, c);
  }

  lemma InstallingBoots(L: Layout, d: Disk, txn: seq<Write>, j: nat, c: Disk)
    requires Loggable(L, txn) && |d| == L.diskSize && txn != [] && j <= |txn|
    requires Installing(L, d, txn, j, c) && ValidHeader(L, c)
    ensures BootWrites(L, c) != [] <==> Checksum(L, d, txn) == 0
    ensures HomeAgrees(L, Apply(c, BootWrites(L, c)), Apply(d, if Checksum(L, d, txn) == 0 then txn else txn[..j]))
  {
    hide Apply, PutHeader, Checksum, ReplaysTo;
    if GatePasses(L, c) {
      var t := State(Apply(c, BootWrites(L, c)), true);
      InstallingReplays(L, d, txn, j, c, Apply(d, txn));
      BootKeepsInv(L, State(c, false), Boot(None), t, Apply(d, txn));
      EmptyLogIsHome(L, t.disk, Apply(d, txn));
    } else {
      NoWrites(L, c);
    }
  }

  /** So the transaction survives such a crash if and only if the stored checksum is 0 or the
      blocks not yet installed already held the new contents. */
  lemma SurvivesIff(L: Layout, d: Disk, txn: seq<Write>, k: nat)
    requires Loggable(L, txn) && |d| == L.diskSize && txn != [] && Distinct(txn)
    requires |txn| + 2 <= k <= 2 * |txn| + 2
    ensures var c := Apply(d, CommitWrites(L, d, txn)[..k]);
      && ValidHeader(L, c)
      && (HomeAgrees(L, Apply(c, BootWrites(L, c)), Apply(d, txn)) <==>
           || Checksum(L, d, txn) == 0
           || forall i :: k - |txn| - 2 <= i < |txn| ==> d[txn[i].blockno] == txn[i].data)
  {
    hide Apply, CommitWrites, BootWrites, HomeAgrees, Distinct;
    var c, j := Apply(d, CommitWrites(L, d, txn)[..k]), k - |txn| - 2;
    ExactRecovery(L, d, txn, k);
    PartOfTransaction(L, d, txn, j);
    AgreesWith(L, Apply(c, BootWrites(L, c)), Apply(d, if Checksum(L, d, txn) == 0 then txn else txn[..j]),
      Apply(d, txn));
  }

  lemma AgreesWith(L: Layout, a: Disk, b: Disk, c: Disk)
    requires HomeAgrees(L, a, b) && |c| == |b|
    ensures HomeAgrees(L, a, c) <==> HomeAgrees(L, b, c)
    ensures HomeAgrees(L, c, c)
  {
  }

  lemma PartOfTransaction(L: Layout, d: Disk, txn: seq<Write>, j: nat)
    requires Loggable(L, txn) && |d| == L.diskSize && Distinct(txn) && j <= |txn|
    ensures HomeAgrees(L, Apply(d, txn[..j]), Apply(d, txn)) <==>
      forall i :: j <= i < |txn| ==> d[txn[i].blockno] == txn[i].data
  {
    hide Apply;
    forall i | j <= i < |txn|
      ensures Apply(d, txn)[txn[i].blockno] == txn[i].data
      ensures Apply(d, txn[..j])[txn[i].blockno] == d[txn[i].blockno]
    {
      DistinctApply(d, txn, i);
      ApplyFrame(d, txn[..j], txn[i].blockno);
    }
    assert txn == txn[..j] + txn[j..];
    ApplyAppend(d, txn[..j], txn[j..]);
    forall b: nat | L.Home(b) && !Touches(txn[j..], b)
      ensures Apply(d, txn)[b] == Apply(d, txn[..j])[b]
    {
      ApplyFrame(Apply(d, txn[..j]), txn[j..], b);
    }
  }

  lemma DistinctApply(d: Disk, txn: seq<Write>, i: nat)
    requires Distinct(txn) && i < |txn| && txn[i].blockno < |d|
    ensures Apply(d, txn)[txn[i].blockno] == txn[i].data
  {
  }
}
