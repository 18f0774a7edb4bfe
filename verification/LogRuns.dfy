/**
 * log.c as a state machine: every run of begin_op, log_write, end_op and sync, where the
 * committer and recovery write one block at a time and a crash may come between any two writes.
 */
module LogRuns {
  import opened Collections
  import opened LogSpec

  /** Where a caller of sync is. */
  datatype Pc =
    | Enter            // about to test lh.n, without the lock
    | Seen             // about to take the lock and set committing
    | Wait(asleep: bool)
    | LogBlock(i: nat) // write_log
    | PutHead          // the first write_head: the commit point
    | Install(i: nat)  // install_trans
    | ClearHead        // the second write_head
    | Leave

  datatype Boot = Up | Recovering(i: nat)

  /**
   * The disk, the in-memory log header `lh`, and `mem`: what bread returns for each block, the
   * pinned buffer if there is one, else the disk.
   */
  datatype Io<T> = Io(area: Area, disk: Disk<T>, mem: seq<T>, lh: seq<nat>)

  /**
   * `ops[j]` counts the blocks that the j-th operation in progress has added to the log.
   * History: `quiet` holds the contents at every moment with no operation in progress,
   * `point` indexes the one that the last header write made durable and `synced` the one of
   * the last commit that finished.
   */
  datatype State<T> = State(
    io: Io<T>,
    boot: Boot,
    ops: seq<nat>,
    committing: bool,
    callers: seq<Pc>,
    sleepers: nat,      // callers of begin_op asleep on &log
    quiet: seq<seq<T>>,
    point: nat,
    synced: nat)
  {
    /** begin_op's test: there might not be room for one more operation. */
    predicate Full() {
      |io.lh| + (|ops| + 1) * MAXOPBLOCKS > LOGSIZE
    }

    /** end_op's test. */
    predicate MustCommit() {
      |io.lh| + MAXOPBLOCKS > LOGSIZE
    }

    /** log_write panics. */
    predicate Panics() {
      |io.lh| >= LOGSIZE || |io.lh| + 1 >= io.area.size || |ops| < 1
    }
  }

  datatype Step<T> =
    | BeginOp
    | LogWrite(op: nat, b: nat, v: T)
    | EndOp(op: nat)
    | CallSync
    | Sync(c: nat)      // the c-th caller of sync takes its next step
    | Crash
    | Recover           // recover_from_log takes its next step

  predicate Enabled<T>(s: State<T>, st: Step<T>) {
    match st
    case BeginOp => s.boot.Up?
    case LogWrite(op, b, _) =>
      // an operation adds at most MAXOPBLOCKS blocks, and never logs the log itself
      && s.boot.Up? && op < |s.ops| && b < |s.io.mem| && !s.io.area.Holds(b)
      && !s.Panics()
      && (b in s.io.lh || s.ops[op] < MAXOPBLOCKS)
    case EndOp(op) => s.boot.Up? && op < |s.ops|
    case CallSync => s.boot.Up?
    case Sync(c) => s.boot.Up? && c < |s.callers| && SyncEnabled(s.io, s.callers[c])
    case Crash => EntryCountOk(s.io.disk.head)
    case Recover => s.boot.Recovering? && s.io.area.start + 1 + |s.io.lh| <= |s.io.disk.blocks|
  }

  /** A caller asleep stays so, and no step reads outside the log header or the disk. */
  predicate SyncEnabled<T>(io: Io<T>, pc: Pc) {
    && |io.lh| <= LOGSIZE
    && (pc.Wait? ==> !pc.asleep)
    && (pc.LogBlock? && pc.i < |io.lh| ==> io.lh[pc.i] < |io.mem|)
    && (pc.Install? && pc.i < |io.lh| ==> io.area.start + 1 + pc.i < |io.disk.blocks|)
  }

  /** Nobody else is inside sync when a caller enters it. */
  predicate Exclusive<T>(s: State<T>, st: Step<T>) {
    match st
    case CallSync => s.callers == []
    case EndOp(_) => |s.ops| == 1 && s.MustCommit() ==> s.callers == []
    case _ => true
  }

  /** A caller that is inside commit, writing the log, the header or the home blocks. */
  predicate Busy(pc: Pc) {
    pc.LogBlock? || pc.PutHead? || pc.Install? || pc.ClearHead?
  }

  predicate OthersIdle(callers: seq<Pc>, c: nat) {
    forall d :: 0 <= d < |callers| && d != c ==> !Busy(callers[d])
  }

  /**
   * One committer at a time: a caller goes on from its wait to commit a transaction only while
   * `committing` is set and nobody else commits, and it clears `committing` only while nobody does.
   * Any number of callers may be inside sync.
   */
  predicate OneCommitter<T>(s: State<T>, st: Step<T>) {
    st.Sync? && st.c < |s.callers| ==>
      match s.callers[st.c]
      case Wait(_) => s.ops == [] && s.io.lh != [] ==> s.committing && OthersIdle(s.callers, st.c)
      case Leave => OthersIdle(s.callers, st.c)
      case _ => true
  }

  /** wakeup(&log.sync_chan) */
  function WakeSync(callers: seq<Pc>): (r: seq<Pc>)
    ensures |r| == |callers|
    ensures forall c :: 0 <= c < |r| ==> r[c] == if callers[c].Wait? then Wait(false) else callers[c]
  {
    seq(|callers|, c requires 0 <= c < |callers| => if callers[c].Wait? then Wait(false) else callers[c])
  }

  function Do<T>(s: State<T>, st: Step<T>): State<T>
    requires Enabled(s, st)
  {
    match st
    case BeginOp =>
      if s.committing || s.Full() then s.(sleepers := s.sleepers + 1) else s.(ops := s.ops + [0])
    case LogWrite(op, b, v) =>
      var t := s.(io := Record(s.io, b, v));
      if b in s.io.lh then t else t.(ops := s.ops[op := s.ops[op] + 1])
    case EndOp(op) => DoEnd(s, op)
    case CallSync => s.(callers := s.callers + [Enter])
    case Sync(c) => DoSync(s, c)
    case Crash =>
      State(s.io.(lh := Entries(s.io.disk.head)), Recovering(0), [], false, [], 0, s.quiet, s.point, s.synced)
    case Recover => DoRecover(s)
  }

  /** log_write: pin the buffer, and record the block unless it is there already. */
  function Record<T>(io: Io<T>, b: nat, v: T): Io<T>
    requires b < |io.mem|
  {
    io.(mem := io.mem[b := v], lh := if b in io.lh then io.lh else io.lh + [b])
  }

  function DoEnd<T>(s: State<T>, op: nat): State<T>
    requires op < |s.ops|
  {
    var t := s.(ops := Without(s.ops, op));
    var t := if t.ops != [] then t
             else
               var u := t.(callers := WakeSync(t.callers), quiet := t.quiet + [t.io.mem]);
               if u.MustCommit() then u.(committing := true, callers := u.callers + [Enter]) else u;
    if t.committing then t else t.(sleepers := 0)
  }

  /** write_log, one block. */
  function LogOne<T>(io: Io<T>, i: nat): Io<T>
    requires i < |io.lh| && io.lh[i] < |io.mem|
  {
    io.(disk := Put(io.disk, ToBlock(io.area.start + 1 + i, io.mem[io.lh[i]])))
  }

  /** install_trans, one block. */
  function InstallOne<T>(io: Io<T>, i: nat): Io<T>
    requires i < |io.lh| && io.area.start + 1 + i < |io.disk.blocks|
  {
    io.(disk := Put(io.disk, ToBlock(io.lh[i], io.disk.blocks[io.area.start + 1 + i])))
  }

  function WriteHead<T>(io: Io<T>): Io<T>
    requires |io.lh| <= LOGSIZE
  {
    io.(disk := Put(io.disk, ToHead(HeadOf(io.disk.head, io.lh))))
  }

  function DoSync<T>(s: State<T>, c: nat): State<T>
    requires c < |s.callers| && SyncEnabled(s.io, s.callers[c])
  {
    match s.callers[c]
    case Enter =>
      if s.io.lh == [] then s.(callers := Without(s.callers, c))
      else Goto(s, c, Seen)
    case Seen => Goto(s.(committing := true), c, Wait(s.ops != []))
    case Wait(_) =>
      Goto(s, c, if s.ops != [] then Wait(true) else if s.io.lh == [] then Leave else LogBlock(0))
    case LogBlock(i) =>
      if i < |s.io.lh| then Goto(s.(io := LogOne(s.io, i)), c, LogBlock(i + 1)) else Goto(s, c, PutHead)
    case PutHead =>
      Goto(s.(io := WriteHead(s.io), point := if s.quiet == [] then 0 else |s.quiet| - 1), c, Install(0))
    case Install(i) =>
      if i < |s.io.lh| then Goto(s.(io := InstallOne(s.io, i)), c, Install(i + 1))
      else Goto(s.(io := s.io.(lh := [])), c, ClearHead)
    case ClearHead => Goto(s.(io := WriteHead(s.io), synced := s.point), c, Leave)
    case Leave => s.(committing := false, sleepers := 0, callers := Without(s.callers, c))
  }

  function Goto<T>(s: State<T>, c: nat, pc: Pc): State<T>
    requires c < |s.callers|
  {
    s.(callers := s.callers[c := pc])
  }

  function DoRecover<T>(s: State<T>): State<T>
    requires s.boot.Recovering? && s.io.area.start + 1 + |s.io.lh| <= |s.io.disk.blocks|
  {
    var i := s.boot.i;
    if i < |s.io.lh| then s.(io := InstallOne(s.io, i), boot := Recovering(i + 1))
    else
      s.(io := WriteHead(Io(s.io.area, s.io.disk, s.io.disk.blocks, [])), boot := Up,
         quiet := s.quiet[..if s.point < |s.quiet| then s.point + 1 else |s.quiet|])
  }

  // ----- runs -----

  ghost predicate Run<T>(s: State<T>, steps: seq<Step<T>>)
    decreases |steps|
  {
    steps == [] || (Enabled(s, steps[0]) && Run(Do(s, steps[0]), steps[1..]))
  }

  ghost predicate ExclusiveRun<T>(s: State<T>, steps: seq<Step<T>>)
    requires Run(s, steps)
    decreases |steps|
  {
    steps == [] || (Exclusive(s, steps[0]) && ExclusiveRun(Do(s, steps[0]), steps[1..]))
  }

  ghost predicate GuardedRun<T>(s: State<T>, steps: seq<Step<T>>)
    requires Run(s, steps)
    decreases |steps|
  {
    steps == [] || (OneCommitter(s, steps[0]) && GuardedRun(Do(s, steps[0]), steps[1..]))
  }

  ghost function Exec<T>(s: State<T>, steps: seq<Step<T>>): State<T>
    requires Run(s, steps)
    decreases |steps|
  {
    if steps == [] then s else Exec(Do(s, steps[0]), steps[1..])
  }

  /** A freshly recovered system. */
  ghost predicate Init<T>(s: State<T>) {
    && LogEmpty(s.io.disk, s.io.area)
    && s == State(Io(s.io.area, s.io.disk, s.io.disk.blocks, []), Up, [], false, [], 0, [s.io.disk.blocks], 0, 0)
  }

  /** Recovery of the disk `d` leaves the home blocks of `x`. */
  ghost predicate RecoversTo<T>(d: Disk<T>, a: Area, x: seq<T>) {
    && Recoverable(d, a) && |x| == |d.blocks|
    && (forall i :: 0 <= i < |Entries(d.head)| ==> x[Entries(d.head)[i]] == d.blocks[a.start + 1 + i])
    && (forall b :: 0 <= b < |x| && !a.Holds(b) && b !in Entries(d.head) ==> x[b] == d.blocks[b])
  }

  lemma RecoversToRecovered<T>(d: Disk<T>, a: Area, x: seq<T>)
    requires RecoversTo(d, a, x)
    ensures SameHome(Recovered(d, a).blocks, x, a)
  {
    RecoveredBlocks(d, a);
    var lh := Entries(d.head);
    forall b | 0 <= b < |x| && !a.Holds(b) && b in lh
      ensures Recovered(d, a).blocks[b] == x[b]
    {
      var i :| 0 <= i < |lh| && lh[i] == b;
    }
  }

  /** Recovery would leave the contents of a moment with no operation in progress, no older than the last commit. */
  ghost predicate CrashSafe<T>(s: State<T>) {
    && Recoverable(s.io.disk, s.io.area)
    && exists k :: s.synced <= k < |s.quiet| && SameHome(Recovered(s.io.disk, s.io.area).blocks, s.quiet[k], s.io.area)
  }

  // ----- the invariant of the disk and the log header -----

  /** The in-memory log holds distinct home blocks, which are all that differs from the disk. */
  ghost predicate Pinned<T>(io: Io<T>) {
    && io.area.Fits(io.disk) && |io.mem| == |io.disk.blocks|
    && GoodEntries(io.lh, io.area, |io.mem|)
    && (forall b :: 0 <= b < |io.mem| && !io.area.Holds(b) && b !in io.lh ==> io.mem[b] == io.disk.blocks[b])
  }

  /** The log blocks of the first `n` entries hold their data. */
  ghost predicate Logged<T>(io: Io<T>, n: nat) {
    && Pinned(io) && n <= |io.lh|
    && forall j :: 0 <= j < n ==> io.disk.blocks[io.area.start + 1 + j] == io.mem[io.lh[j]]
  }

  /** The header names the whole transaction, and the first `n` entries are installed. */
  ghost predicate Installed<T>(io: Io<T>, n: nat) {
    && Logged(io, |io.lh|) && n <= |io.lh|
    && EntryCountOk(io.disk.head) && Entries(io.disk.head) == io.lh
    && forall j :: 0 <= j < n ==> io.disk.blocks[io.lh[j]] == io.mem[io.lh[j]]
  }

  /** No transaction is on its way to the disk. */
  ghost predicate Idle<T>(io: Io<T>) {
    io.disk.head[0] == 0
  }

  // ----- what one write does, and what recovery would then leave -----

  /** Before the header names it, a log block does not matter to recovery. */
  lemma LogOneKeeps<T>(io: Io<T>, x: seq<T>, i: nat)
    requires RecoversTo(io.disk, io.area, x) && Idle(io) && Logged(io, i) && i < |io.lh|
    ensures RecoversTo(LogOne(io, i).disk, io.area, x) && Idle(LogOne(io, i)) && Logged(LogOne(io, i), i + 1)
  {
  }

  lemma NothingLogged<T>(io: Io<T>)
    requires Pinned(io)
    ensures Logged(io, 0)
  {
  }

  /** The header write decides: from here on recovery installs what the log holds. */
  lemma PutHeadCommits<T>(io: Io<T>, x: seq<T>)
    requires Logged(io, |io.lh|) && SameHome(io.mem, x, io.area)
    ensures RecoversTo(WriteHead(io).disk, io.area, x) && Installed(WriteHead(io), 0)
  {
    hide Entries, HeadOf;
    HeadEntries(io.disk.head, io.lh);
  }

  /** Installing a logged block does not change what recovery leaves. */
  lemma InstallRecovers<T>(io: Io<T>, x: seq<T>, i: nat)
    requires RecoversTo(io.disk, io.area, x) && io.lh == Entries(io.disk.head) && i < |io.lh|
    ensures RecoversTo(InstallOne(io, i).disk, io.area, x)
    ensures InstallOne(io, i).disk.blocks == io.disk.blocks[io.lh[i] := x[io.lh[i]]]
  {
  }

  lemma InstalledMore<T>(io: Io<T>, i: nat)
    requires Installed(io, i) && i < |io.lh|
    ensures Installed(InstallOne(io, i), i + 1)
  {
    hide Entries, EntryCountOk;
    var o := InstallOne(io, i);
    var c := io.lh[i];
    assert o.disk.blocks == io.disk.blocks[c := io.mem[c]] && o.disk.head == io.disk.head;
    StillLogged(io, c);
  }

  /** A home block written with what is in memory disturbs nothing of the log. */
  lemma StillLogged<T>(io: Io<T>, c: nat)
    requires Logged(io, |io.lh|) && c in io.lh
    ensures c < |io.disk.blocks| && Logged(io.(disk := io.disk.(blocks := io.disk.blocks[c := io.mem[c]])), |io.lh|)
  {
  }

  lemma InstallOneKeeps<T>(io: Io<T>, x: seq<T>, i: nat)
    requires RecoversTo(io.disk, io.area, x) && Installed(io, i) && i < |io.lh|
    ensures RecoversTo(InstallOne(io, i).disk, io.area, x) && Installed(InstallOne(io, i), i + 1)
  {
    hide RecoversTo;
    InstallRecovers(io, x, i);
    InstalledMore(io, i);
  }

  lemma AllInstalled<T>(io: Io<T>)
    requires Installed(io, |io.lh|)
    ensures Pinned(io.(lh := []))
  {
    forall b | 0 <= b < |io.mem| && !io.area.Holds(b) && b in io.lh
      ensures io.mem[b] == io.disk.blocks[b]
    {
      var j :| 0 <= j < |io.lh| && io.lh[j] == b;
    }
  }

  /** Once every home block is in place the header may be cleared. */
  lemma ClearHeadKeeps<T>(io: Io<T>, x: seq<T>)
    requires Pinned(io) && io.lh == [] && SameHome(io.mem, x, io.area)
    ensures RecoversTo(WriteHead(io).disk, io.area, x) && Pinned(WriteHead(io)) && Idle(WriteHead(io))
  {
  }

  /** Recovery has copied the first `n` logged blocks home. */
  ghost predicate Copied<T>(io: Io<T>, x: seq<T>, n: nat) {
    && RecoversTo(io.disk, io.area, x) && io.lh == Entries(io.disk.head) && n <= |io.lh|
    && forall j :: 0 <= j < n ==> io.disk.blocks[io.lh[j]] == x[io.lh[j]]
  }

  lemma CopyOneKeeps<T>(io: Io<T>, x: seq<T>, i: nat)
    requires Copied(io, x, i) && i < |io.lh|
    ensures RecoversTo(InstallOne(io, i).disk, io.area, x) && Copied(InstallOne(io, i), x, i + 1)
  {
    InstallRecovers(io, x, i);
  }

  lemma AllCopied<T>(io: Io<T>, x: seq<T>)
    requires Copied(io, x, |io.lh|)
    ensures SameHome(io.disk.blocks, x, io.area) && Pinned(Io(io.area, io.disk, io.disk.blocks, []))
  {
    forall b | 0 <= b < |x| && !io.area.Holds(b) && b in io.lh
      ensures x[b] == io.disk.blocks[b]
    {
      var j :| 0 <= j < |io.lh| && io.lh[j] == b;
    }
  }

  // ----- reservation -----

  /** What operations in progress may still add to the log. */
  ghost function Unspent(ops: seq<nat>): (n: int) {
    if ops == [] then 0 else MAXOPBLOCKS - ops[0] + Unspent(ops[1..])
  }

  ghost predicate Reserved(n: nat, ops: seq<nat>) {
    && (forall j :: 0 <= j < |ops| ==> ops[j] <= MAXOPBLOCKS)
    && n + Unspent(ops) <= LOGSIZE
  }

  lemma {:induction false} UnspentSplit(xs: seq<nat>, ys: seq<nat>)
    ensures Unspent(xs + ys) == Unspent(xs) + Unspent(ys)
  {
    if xs == [] {
      assert xs + ys == ys;
    } else {
      assert (xs + ys)[1..] == xs[1..] + ys;
      UnspentSplit(xs[1..], ys);
    }
  }

  lemma UnspentAt(ops: seq<nat>, i: nat, x: nat)
    requires i < |ops|
    ensures Unspent(ops[i := x]) == Unspent(Without(ops, i)) + MAXOPBLOCKS - x
  {
    assert ops[i := x] == ops[..i] + ([x] + ops[i + 1..]);
    UnspentSplit(ops[..i], ops[i + 1..]);
    UnspentSplit(ops[..i], [x] + ops[i + 1..]);
  }

  lemma {:induction false} UnspentBounds(ops: seq<nat>)
    requires forall j :: 0 <= j < |ops| ==> ops[j] <= MAXOPBLOCKS
    ensures 0 <= Unspent(ops) <= |ops| * MAXOPBLOCKS
  {
    if ops != [] {
      UnspentBounds(ops[1..]);
    }
  }

  lemma BeginReserves(n: nat, ops: seq<nat>)
    requires Reserved(n, ops) && n + (|ops| + 1) * MAXOPBLOCKS <= LOGSIZE
    ensures Reserved(n, ops + [0])
  {
    UnspentBounds(ops);
    UnspentSplit(ops, [0]);
  }

  lemma RecordSpends(n: nat, ops: seq<nat>, op: nat)
    requires Reserved(n, ops) && op < |ops| && ops[op] < MAXOPBLOCKS
    ensures Reserved(n + 1, ops[op := ops[op] + 1])
  {
    UnspentAt(ops, op, ops[op]);
    UnspentAt(ops, op, ops[op] + 1);
    assert ops[op := ops[op]] == ops;
  }

  lemma EndReleases(n: nat, ops: seq<nat>, op: nat)
    requires Reserved(n, ops) && op < |ops|
    ensures Reserved(n, Without(ops, op))
  {
    UnspentAt(ops, op, ops[op]);
    assert ops[op := ops[op]] == ops;
  }

  // ----- the invariant -----

  /** What holds while a caller of sync is inside commit. */
  ghost predicate AtPc<T>(s: State<T>, pc: Pc) {
    match pc
    case LogBlock(i) => Logged(s.io, i) && i <= |s.io.lh| && Idle(s.io)
    case PutHead => Logged(s.io, |s.io.lh|) && Idle(s.io)
    case Install(i) => Installed(s.io, i) && i <= |s.io.lh| && s.point == |s.quiet| - 1
    case ClearHead => Pinned(s.io) && s.io.lh == [] && s.point == |s.quiet| - 1
    case _ => true
  }

  ghost predicate NoneBusy(callers: seq<Pc>) {
    forall c :: 0 <= c < |callers| ==> !Busy(callers[c])
  }

  /** At most one caller is inside commit, and only while `committing` is set and no operation is in progress. */
  ghost predicate CommitterInv<T>(s: State<T>) {
    && (forall c :: 0 <= c < |s.callers| && Busy(s.callers[c]) ==>
          OthersIdle(s.callers, c) && AtPc(s, s.callers[c]) && s.committing && s.ops == [])
    && (NoneBusy(s.callers) ==> Pinned(s.io) && Idle(s.io))
  }

  ghost predicate UpInv<T>(s: State<T>)
    requires s.quiet != []
  {
    && Reserved(|s.io.lh|, s.ops)
    && (s.ops == [] ==> SameHome(s.io.mem, s.quiet[|s.quiet| - 1], s.io.area))
    && CommitterInv(s)
  }

  ghost predicate RecoveringInv<T>(s: State<T>)
    requires s.boot.Recovering? && s.point < |s.quiet|
  {
    Copied(s.io, s.quiet[s.point], s.boot.i) && s.boot.i <= |s.io.lh| && s.ops == [] && s.callers == []
  }

  ghost predicate Inv<T>(s: State<T>) {
    && s.synced <= s.point < |s.quiet|
    && RecoversTo(s.io.disk, s.io.area, s.quiet[s.point])
    && (if s.boot.Up? then UpInv(s) else RecoveringInv(s))
  }

  // ----- preservation, one step kind at a time -----

  lemma InitInv<T>(s: State<T>)
    requires Init(s)
    ensures Inv(s)
  {
  }

  /** With an operation in progress nobody is inside commit. */
  lemma WorkingNoneBusy<T>(s: State<T>)
    requires CommitterInv(s) && (s.ops != [] || !s.committing)
    ensures NoneBusy(s.callers)
  {
  }

  lemma BeginKeeps<T>(s: State<T>)
    requires Inv(s) && s.boot.Up?
    ensures Inv(Do(s, BeginOp))
  {
    hide RecoversTo, Pinned, SameHome, Reserved, Idle, AtPc;
    if !s.committing && !s.Full() {
      BeginReserves(|s.io.lh|, s.ops);
      WorkingNoneBusy(s);
    } else {
      assert forall pc :: AtPc(s, pc) ==>
        AtPc(s.(sleepers := s.sleepers + 1), pc) by { CommitFrame(s, s.(sleepers := s.sleepers + 1)); }
    }
  }

  /** What is known inside commit speaks only of the disk, the header and the commit history. */
  lemma CommitFrame<T>(s: State<T>, t: State<T>)
    requires t.io == s.io && t.point == s.point && t.quiet == s.quiet
    ensures forall pc :: AtPc(s, pc) ==> AtPc(t, pc)
  {
  }

  lemma RecordKeeps<T>(io: Io<T>, b: nat, v: T)
    requires Pinned(io) && b < |io.mem| && !io.area.Holds(b) && |io.lh| < LOGSIZE && |io.lh| + 1 < io.area.size
    ensures Pinned(Record(io, b, v))
  {
  }

  lemma LogWriteKeeps<T>(s: State<T>, op: nat, b: nat, v: T)
    requires Inv(s) && Enabled(s, LogWrite(op, b, v))
    ensures Inv(Do(s, LogWrite(op, b, v)))
  {
    hide RecoversTo, Pinned, SameHome, Reserved, Logged, Installed, AtPc;
    WorkingNoneBusy(s);
    RecordKeeps(s.io, b, v);
    if b !in s.io.lh {
      RecordSpends(|s.io.lh|, s.ops, op);
    }
  }

  lemma AwakeIdle(callers: seq<Pc>)
    requires NoneBusy(callers)
    ensures NoneBusy(WakeSync(callers)) && NoneBusy(WakeSync(callers) + [Enter])
  {
  }

  lemma NobodyCommits<T>(s: State<T>)
    requires NoneBusy(s.callers) && Pinned(s.io) && Idle(s.io)
    ensures CommitterInv(s)
  {
  }

  lemma EndKeeps<T>(s: State<T>, op: nat)
    requires Inv(s) && s.boot.Up? && op < |s.ops|
    ensures Inv(DoEnd(s, op))
  {
    hide RecoversTo, Pinned, Reserved, Idle, AtPc, CommitterInv, WakeSync, Without, NoneBusy;
    WorkingNoneBusy(s);
    WhenIdle(s);
    AwakeIdle(s.callers);
    EndReleases(|s.io.lh|, s.ops, op);
    NobodyCommits(DoEnd(s, op));
  }

  /** A caller that comes or goes outside commit, or moves there, does not concern the committer. */
  lemma BystanderMoves<T>(s: State<T>, t: State<T>)
    requires CommitterInv(s) && t.io == s.io && t.point == s.point && t.quiet == s.quiet && t.ops == s.ops
    requires t.committing || NoneBusy(s.callers)
    requires NoneBusy(s.callers) <==> NoneBusy(t.callers)
    requires forall k :: 0 <= k < |t.callers| && Busy(t.callers[k]) ==>
      OthersIdle(t.callers, k) && t.callers[k] in s.callers
    ensures CommitterInv(t)
  {
    hide Pinned, Idle, AtPc, OthersIdle;
    CommitFrame(s, t);
  }

  lemma EnterKeeps<T>(s: State<T>)
    requires Inv(s) && s.boot.Up?
    ensures Inv(Do(s, CallSync))
  {
    hide RecoversTo, Pinned, SameHome, Reserved, Idle, AtPc, CommitterInv;
    AfterEntry(s);
    if !NoneBusy(s.callers) {
      SomeoneCommits(s);
    }
    BystanderMoves(s, Do(s, CallSync));
  }

  lemma AfterEntry<T>(s: State<T>)
    requires CommitterInv(s)
    ensures var r := s.callers + [Enter];
      && (NoneBusy(s.callers) <==> NoneBusy(r))
      && forall k :: 0 <= k < |r| && Busy(r[k]) ==> OthersIdle(r, k) && r[k] in s.callers
  {
    hide AtPc, Pinned, Idle;
    var r := s.callers + [Enter];
    if k :| 0 <= k < |s.callers| && Busy(s.callers[k]) {
      assert Busy(r[k]);
    }
    forall k | 0 <= k < |r| && Busy(r[k])
      ensures OthersIdle(r, k) && r[k] in s.callers
    {
      assert r[k] == s.callers[k] && OthersIdle(s.callers, k);
    }
  }

  lemma AfterRemoval<T>(s: State<T>, c: nat)
    requires CommitterInv(s) && c < |s.callers| && !Busy(s.callers[c])
    ensures var r := Without(s.callers, c);
      && (NoneBusy(s.callers) <==> NoneBusy(r))
      && forall k :: 0 <= k < |r| && Busy(r[k]) ==> OthersIdle(r, k) && r[k] in s.callers
  {
    hide AtPc, Pinned, Idle;
    var r := Without(s.callers, c);
    forall k | 0 <= k < |s.callers| && Busy(s.callers[k])
      ensures !NoneBusy(r)
    {
      assert Busy(r[if k < c then k else k - 1]);
    }
    forall k | 0 <= k < |r| && Busy(r[k])
      ensures OthersIdle(r, k) && r[k] in s.callers
    {
      var j := if k < c then k else k + 1;
      assert r[k] == s.callers[j] && OthersIdle(s.callers, j);
      forall d | 0 <= d < |r| && d != k
        ensures !Busy(r[d])
      {
        assert r[d] == s.callers[if d < c then d else d + 1];
      }
    }
  }

  lemma AfterMove<T>(s: State<T>, c: nat, pc: Pc)
    requires CommitterInv(s) && c < |s.callers| && !Busy(s.callers[c]) && !Busy(pc)
    ensures var r := s.callers[c := pc];
      && (NoneBusy(s.callers) <==> NoneBusy(r))
      && forall k :: 0 <= k < |r| && Busy(r[k]) ==> OthersIdle(r, k) && r[k] in s.callers
  {
    hide AtPc, Pinned, Idle;
    var r := s.callers[c := pc];
    if k :| 0 <= k < |s.callers| && Busy(s.callers[k]) {
      assert Busy(r[k]);
    }
    forall k | 0 <= k < |r| && Busy(r[k])
      ensures OthersIdle(r, k) && r[k] in s.callers
    {
      assert r[k] == s.callers[k] && OthersIdle(s.callers, k);
    }
  }

  /** The committer moves on inside commit. */
  lemma CommitterMoves<T>(s: State<T>, c: nat, t: State<T>)
    requires c < |s.callers| && OthersIdle(s.callers, c) && |t.callers| == |s.callers|
    requires t.callers == s.callers[c := t.callers[c]] && t.committing && t.ops == []
    requires if Busy(t.callers[c]) then AtPc(t, t.callers[c]) else Pinned(t.io) && Idle(t.io)
    ensures CommitterInv(t)
  {
    hide AtPc, Pinned, Idle;
    assert forall k :: 0 <= k < |t.callers| && k != c ==> t.callers[k] == s.callers[k];
  }

  /** A step inside commit. */
  lemma CommitStepKeeps<T>(s: State<T>, c: nat)
    requires Inv(s) && Enabled(s, Sync(c)) && Busy(s.callers[c])
    ensures Inv(DoSync(s, c))
  {
    hide RecoversTo, Pinned, Logged, Installed, SameHome, Put, HeadOf, Idle, CommitterInv, Reserved;
    var t := DoSync(s, c);
    assert AtPc(s, s.callers[c]) && OthersIdle(s.callers, c) && s.committing && s.ops == [] by { CommitterAt(s, c); }
    match s.callers[c] {
      case LogBlock(i) =>
        if i < |s.io.lh| {
          LogOneKeeps(s.io, s.quiet[s.point], i);
        }
      case PutHead => PutHeadCommits(s.io, s.quiet[|s.quiet| - 1]);
      case Install(i) =>
        if i < |s.io.lh| {
          InstallOneKeeps(s.io, s.quiet[s.point], i);
        } else {
          AllInstalled(s.io);
          ReservedLess(|s.io.lh|, s.ops);
        }
      case ClearHead => ClearHeadKeeps(s.io, s.quiet[s.point]);
    }
    CommitterMoves(s, c, t);
  }

  lemma CommitterAt<T>(s: State<T>, c: nat)
    requires CommitterInv(s) && c < |s.callers| && Busy(s.callers[c])
    ensures AtPc(s, s.callers[c]) && OthersIdle(s.callers, c) && s.committing && s.ops == []
  {
  }

  lemma ReservedLess(n: nat, ops: seq<nat>)
    requires Reserved(n, ops)
    ensures Reserved(0, ops)
  {
  }

  /** A caller comes or goes without a write while another may be inside commit. */
  lemma BystanderKeeps<T>(s: State<T>, c: nat)
    requires Inv(s) && Enabled(s, Sync(c)) && OneCommitter(s, Sync(c))
    requires s.callers[c].Leave? || (s.callers[c].Enter? && s.io.lh == [])
    ensures Inv(DoSync(s, c))
  {
    hide RecoversTo, Pinned, SameHome, Reserved, Idle, AtPc, CommitterInv;
    AfterRemoval(s, c);
    if s.callers[c].Enter? && !NoneBusy(s.callers) {
      SomeoneCommits(s);
    }
    BystanderMoves(s, DoSync(s, c));
  }

  lemma SomeoneCommits<T>(s: State<T>)
    requires CommitterInv(s) && !NoneBusy(s.callers)
    ensures s.committing
  {
  }

  lemma CommitStarts<T>(s: State<T>)
    requires Pinned(s.io) && Idle(s.io)
    ensures AtPc(s, LogBlock(0))
  {
    NothingLogged(s.io);
  }

  /** A step before commit; another caller may be inside it. */
  lemma WaitStepKeeps<T>(s: State<T>, c: nat)
    requires Inv(s) && Enabled(s, Sync(c)) && OneCommitter(s, Sync(c))
    requires s.callers[c].Wait? || s.callers[c].Seen? || (s.callers[c].Enter? && s.io.lh != [])
    ensures Inv(DoSync(s, c))
  {
    hide RecoversTo, Pinned, SameHome, Reserved, Idle, AtPc, CommitterInv;
    var t := DoSync(s, c);
    if Busy(t.callers[c]) {
      assert NoneBusy(s.callers);
      assert Pinned(s.io) && Idle(s.io) by { WhenIdle(s); }
      CommitStarts(t);
      CommitterMoves(s, c, t);
    } else {
      AfterMove(s, c, t.callers[c]);
      if !NoneBusy(s.callers) {
        SomeoneCommits(s);
      }
      BystanderMoves(s, t);
    }
  }

  lemma WhenIdle<T>(s: State<T>)
    requires CommitterInv(s) && NoneBusy(s.callers)
    ensures Pinned(s.io) && Idle(s.io)
  {
  }

  lemma RecoverKeeps<T>(s: State<T>)
    requires Inv(s) && Enabled(s, Recover)
    ensures Inv(DoRecover(s))
  {
    hide RecoversTo, Pinned, SameHome, Copied, Put, HeadOf;
    var i := s.boot.i;
    if i < |s.io.lh| {
      CopyOneKeeps(s.io, s.quiet[s.point], i);
    } else {
      AllCopied(s.io, s.quiet[s.point]);
      ClearHeadKeeps(Io(s.io.area, s.io.disk, s.io.disk.blocks, []), s.quiet[s.point]);
    }
  }

  lemma CrashKeeps<T>(s: State<T>)
    requires Inv(s)
    ensures Enabled(s, Crash) && Inv(Do(s, Crash))
  {
  }

  // ----- the theorems -----

  lemma StepKeeps<T>(s: State<T>, st: Step<T>)
    requires Inv(s) && Enabled(s, st) && OneCommitter(s, st)
    ensures Inv(Do(s, st))
  {
    hide RecoversTo, Pinned, SameHome, Reserved, Logged, Installed, Copied;
    match st {
      case BeginOp => BeginKeeps(s);
      case LogWrite(op, b, v) => LogWriteKeeps(s, op, b, v);
      case EndOp(op) => EndKeeps(s, op);
      case CallSync => EnterKeeps(s);
      case Sync(c) =>
        if Busy(s.callers[c]) {
          CommitStepKeeps(s, c);
        } else if s.callers[c].Leave? || (s.callers[c].Enter? && s.io.lh == []) {
          BystanderKeeps(s, c);
        } else {
          WaitStepKeeps(s, c);
        }
      case Crash => CrashKeeps(s);
      case Recover => RecoverKeeps(s);
    }
  }

  /**
   * The guard is exact: from a state in which it has held so far, the step keeps the
   * invariant if and only if it holds.
   */
  lemma GuardExact<T>(s: State<T>, st: Step<T>)
    requires Inv(s) && Enabled(s, st)
    ensures Inv(Do(s, st)) <==> OneCommitter(s, st)
  {
    hide RecoversTo, Pinned, SameHome, Reserved, Logged, Installed, Copied, AtPc;
    if OneCommitter(s, st) {
      StepKeeps(s, st);
    } else if s.callers[st.c].Leave? {
      LeavesTooSoon(s, st.c);
    } else {
      CommitsTooSoon(s, st.c);
    }
  }

  lemma LeavesTooSoon<T>(s: State<T>, c: nat)
    requires Inv(s) && Enabled(s, Sync(c)) && s.callers[c].Leave? && !OthersIdle(s.callers, c)
    ensures !Inv(DoSync(s, c))
  {
    hide RecoversTo, Pinned, SameHome, Reserved, Idle, AtPc;
    var t := DoSync(s, c);
    var d :| 0 <= d < |s.callers| && d != c && Busy(s.callers[d]);
    assert t.callers[if d < c then d else d - 1] == s.callers[d];
  }

  lemma CommitsTooSoon<T>(s: State<T>, c: nat)
    requires Inv(s) && Enabled(s, Sync(c)) && s.callers[c].Wait? && s.ops == [] && s.io.lh != []
    requires !s.committing || !OthersIdle(s.callers, c)
    ensures !Inv(DoSync(s, c))
  {
    hide RecoversTo, Pinned, SameHome, Reserved, Idle, AtPc;
    var t := DoSync(s, c);
    assert Busy(t.callers[c]);
    if !OthersIdle(s.callers, c) {
      var d :| 0 <= d < |s.callers| && d != c && Busy(s.callers[d]);
      assert t.callers[d] == s.callers[d];
    }
  }

  lemma {:induction false} RunKeeps<T>(s: State<T>, steps: seq<Step<T>>)
    requires Inv(s) && Run(s, steps) && GuardedRun(s, steps)
    ensures Inv(Exec(s, steps))
    decreases |steps|
  {
    if steps != [] {
      StepKeeps(s, steps[0]);
      RunKeeps(Do(s, steps[0]), steps[1..]);
    }
  }

  /** Whatever the instant of the crash, recovery leaves an entry of `quiet` no older than the last commit. */
  lemma CrashSafeRun<T>(s: State<T>, steps: seq<Step<T>>)
    requires Init(s) && Run(s, steps) && GuardedRun(s, steps)
    ensures CrashSafe(Exec(s, steps))
  {
    InitInv(s);
    RunKeeps(s, steps);
    var t := Exec(s, steps);
    RecoversToRecovered(t.io.disk, t.io.area, t.quiet[t.point]);
  }

  // ----- the reservation holds over every run, however many callers commit -----

  ghost predicate SpendInv<T>(s: State<T>) {
    if s.boot.Up? then Reserved(|s.io.lh|, s.ops) && Distinct(s.io.lh) else s.ops == []
  }

  /** sync and recovery change the log header only to empty it. */
  lemma SyncSpends<T>(s: State<T>, c: nat)
    requires SpendInv(s) && Enabled(s, Sync(c))
    ensures SpendInv(DoSync(s, c))
  {
    hide Put, HeadOf, Unspent, Without;
    assert DoSync(s, c).io.lh == s.io.lh || DoSync(s, c).io.lh == [];
  }

  lemma SpendKeeps<T>(s: State<T>, st: Step<T>)
    requires SpendInv(s) && Enabled(s, st)
    ensures SpendInv(Do(s, st))
  {
    hide Put, HeadOf, Unspent, Entries, DoSync;
    match st {
      case BeginOp =>
        if !s.committing && !s.Full() {
          BeginReserves(|s.io.lh|, s.ops);
        }
      case LogWrite(op, b, _) =>
        if b !in s.io.lh {
          RecordSpends(|s.io.lh|, s.ops, op);
        }
      case EndOp(op) => EndReleases(|s.io.lh|, s.ops, op);
      case Sync(c) => SyncSpends(s, c);
      case Recover => assert Unspent([]) == 0 by { UnspentBounds([]); }
      case _ =>
    }
  }

  lemma {:induction false} SpendRun<T>(s: State<T>, steps: seq<Step<T>>)
    requires SpendInv(s) && Run(s, steps)
    ensures SpendInv(Exec(s, steps))
    decreases |steps|
  {
    hide SpendInv;
    if steps != [] {
      SpendKeeps(s, steps[0]);
      SpendRun(Do(s, steps[0]), steps[1..]);
    }
  }

  /**
   * Over every run the logged block numbers are distinct, and what is logged together with what the
   * operations in progress may still log fits; so with LOGSIZE + 1 log blocks on the disk log_write
   * does not panic for an operation that has not used up its share.
   */
  lemma LogNeverOverflows<T>(s: State<T>, steps: seq<Step<T>>, op: nat)
    requires Init(s) && Run(s, steps)
    requires var t := Exec(s, steps); t.boot.Up? && op < |t.ops|
    ensures var t := Exec(s, steps);
      && |t.io.lh| + Unspent(t.ops) <= LOGSIZE
      && (forall i, j :: 0 <= i < j < |t.io.lh| ==> t.io.lh[i] != t.io.lh[j])
      && (t.ops[op] < MAXOPBLOCKS && t.io.area.size > LOGSIZE ==> !t.Panics())
  {
    SpendRun(s, steps);
    var t := Exec(s, steps);
    if t.ops[op] < MAXOPBLOCKS {
      ShareLeft(|t.io.lh|, t.ops, op);
    }
  }

  lemma ShareLeft(n: nat, ops: seq<nat>, op: nat)
    requires Reserved(n, ops) && op < |ops| && ops[op] < MAXOPBLOCKS
    ensures n < LOGSIZE
  {
    EndReleases(n, ops, op);
    UnspentAt(ops, op, ops[op]);
    assert ops[op := ops[op]] == ops;
    UnspentBounds(Without(ops, op));
  }

  lemma {:induction false} RunAppend<T>(s: State<T>, steps: seq<Step<T>>, st: Step<T>)
    requires Run(s, steps) && Enabled(Exec(s, steps), st)
    ensures Run(s, steps + [st]) && Exec(s, steps + [st]) == Do(Exec(s, steps), st)
    ensures ExclusiveRun(s, steps) && Exclusive(Exec(s, steps), st) ==> ExclusiveRun(s, steps + [st])
    ensures GuardedRun(s, steps) && OneCommitter(Exec(s, steps), st) ==> GuardedRun(s, steps + [st])
    decreases |steps|
  {
    var all := steps + [st];
    if steps == [] {
      assert all[1..] == [];
    } else {
      assert all[1..] == steps[1..] + [st];
      RunAppend(Do(s, steps[0]), steps[1..], st);
    }
  }

  /** The j-th share after k blocks were logged, the first operation's share first. */
  function Used(j: nat, k: nat): nat {
    if k <= j * MAXOPBLOCKS then 0 else if k <= (j + 1) * MAXOPBLOCKS then k - j * MAXOPBLOCKS else MAXOPBLOCKS
  }

  /** Nothing is logged and nothing is in progress. */
  ghost predicate Clear<T>(s: State<T>) {
    && s.boot.Up? && s.ops == [] && s.io.lh == [] && !s.committing && |s.io.mem| == |s.io.disk.blocks|
    && s.io.area.start + s.io.area.size + LOGSIZE <= |s.io.mem|
  }

  /** Three operations have begun since `s`, and logged the first `k` blocks after the log between them. */
  ghost predicate Filled<T>(s: State<T>, t: State<T>, k: nat) {
    var home := s.io.area.start + s.io.area.size;
    && t == s.(io := t.io, ops := [Used(0, k), Used(1, k), Used(2, k)])
    && t.io.area == s.io.area && t.io.disk == s.io.disk && |t.io.mem| == |s.io.mem|
    && |t.io.lh| == k && (forall i :: 0 <= i < k ==> t.io.lh[i] == home + i)
    && forall b :: 0 <= b < |s.io.mem| && b !in t.io.lh ==> t.io.mem[b] == s.io.mem[b]
  }

  lemma {:induction false} Fill<T>(s: State<T>, k: nat, v: T) returns (steps: seq<Step<T>>)
    requires Clear(s) && k <= LOGSIZE && k < s.io.area.size
    ensures Run(s, steps) && ExclusiveRun(s, steps) && GuardedRun(s, steps) && Filled(s, Exec(s, steps), k)
  {
    if k == 0 {
      steps := [];
      RunAppend(s, steps, BeginOp);
      steps := steps + [BeginOp];
      RunAppend(s, steps, BeginOp);
      steps := steps + [BeginOp];
      RunAppend(s, steps, BeginOp);
      steps := steps + [BeginOp];
    } else {
      steps := Fill(s, k - 1, v);
      var st := LogWrite((k - 1) / MAXOPBLOCKS, s.io.area.start + s.io.area.size + k - 1, v);
      OneBlockMore(s, Exec(s, steps), k, v);
      RunAppend(s, steps, st);
      steps := steps + [st];
    }
  }

  lemma OneBlockMore<T>(s: State<T>, t: State<T>, k: nat, v: T)
    requires Clear(s) && 0 < k <= LOGSIZE && k < s.io.area.size && Filled(s, t, k - 1)
    ensures var st := LogWrite((k - 1) / MAXOPBLOCKS, s.io.area.start + s.io.area.size + k - 1, v);
      Enabled(t, st) && Filled(s, Do(t, st), k)
  {
    var st := LogWrite((k - 1) / MAXOPBLOCKS, s.io.area.start + s.io.area.size + k - 1, v);
    assert st.b !in t.io.lh;
  }

  /**
   * mkfs gives the log LOGSIZE blocks with its header. That is one too few: on any disk with so
   * small a log, some run makes log_write panic for an operation with room left in its share.
   */
  lemma SmallLogPanics<T(!new)>(s: State<T>, v: T)
    requires Init(s) && s.io.area.size <= LOGSIZE
    requires s.io.area.start + s.io.area.size + LOGSIZE <= |s.io.mem|
    ensures exists steps, op: nat ::
      && Run(s, steps) && ExclusiveRun(s, steps)
      && op < |Exec(s, steps).ops| && Exec(s, steps).ops[op] < MAXOPBLOCKS && Exec(s, steps).Panics()
  {
    var k := s.io.area.size - 1;
    var steps := Fill(s, k, v);
    var op := k / MAXOPBLOCKS;
    assert Exec(s, steps).ops[op] < MAXOPBLOCKS;
  }

  // ----- waiting -----

  ghost predicate Stage<T>(s: State<T>, pc: Pc) {
    match pc
    case Enter => s.committing ==> s.io.lh != [] && s.ops == []
    case Seen => s.io.lh != [] && (s.committing ==> s.ops == [])
    case Wait(asleep) => s.committing && s.io.lh != [] && (asleep ==> s.ops != [])
    case _ => s.committing && s.ops == [] && (pc.ClearHead? || pc.Leave? ==> s.io.lh == [])
  }

  /** What holds of the waiting callers when nobody enters sync while somebody is inside. */
  ghost predicate Orderly<T>(s: State<T>) {
    && |s.callers| <= 1
    && (s.callers == [] ==> !s.committing)
    && (s.callers != [] ==> Stage(s, s.callers[0]))
    && (s.boot.Recovering? ==> s.callers == [] && s.ops == [] && s.sleepers == 0)
    && (s.boot.Up? && s.ops == [] && !s.committing ==> !s.Full())
    && (s.sleepers > 0 ==> s.committing || s.Full())
  }

  lemma OrderlyKeeps<T>(s: State<T>, st: Step<T>)
    requires Orderly(s) && Enabled(s, st) && Exclusive(s, st)
    ensures Orderly(Do(s, st)) && OneCommitter(s, st)
  {
    hide DoSync, DoEnd, Entries, Put, HeadOf;
    match st {
      case EndOp(op) => OrderlyEnd(s, op);
      case Sync(c) => OrderlySync(s);
      case _ =>
    }
  }

  lemma OrderlyEnd<T>(s: State<T>, op: nat)
    requires Orderly(s) && Enabled(s, EndOp(op)) && Exclusive(s, EndOp(op))
    ensures Orderly(DoEnd(s, op))
  {
  }

  lemma OrderlySync<T>(s: State<T>)
    requires Orderly(s) && Enabled(s, Sync(0))
    ensures Orderly(DoSync(s, 0))
  {
    hide Put, HeadOf;
  }

  lemma {:induction false} OrderlyRun<T>(s: State<T>, steps: seq<Step<T>>)
    requires Orderly(s) && Run(s, steps) && ExclusiveRun(s, steps)
    ensures Orderly(Exec(s, steps)) && GuardedRun(s, steps)
    decreases |steps|
  {
    hide Orderly;
    if steps != [] {
      OrderlyKeeps(s, steps[0]);
      OrderlyRun(Do(s, steps[0]), steps[1..]);
    }
  }

  /** Nobody sleeps with nothing left to wake them. */
  lemma NoStuckWaiter<T>(s: State<T>, steps: seq<Step<T>>)
    requires Init(s) && Run(s, steps) && ExclusiveRun(s, steps) && Exec(s, steps).boot.Up?
    ensures var t := Exec(s, steps);
      && (t.ops == [] && !t.committing ==> !t.Full())
      && (t.sleepers > 0 ==> t.committing || t.Full())
      && (forall c :: 0 <= c < |t.callers| && t.callers[c] == Wait(true) ==> t.ops != [])
      && (t.committing ==> t.callers != [])
  {
    OrderlyRun(s, steps);
  }

  /** While a caller of sync waits no operation begins. */
  lemma WaitingDrains<T>(s: State<T>, st: Step<T>)
    requires Orderly(s) && Enabled(s, st) && Exclusive(s, st)
    requires s.boot.Up? && s.callers != [] && s.callers[0].Wait?
    ensures |Do(s, st).ops| <= |s.ops|
    ensures st.EndOp? ==> |Do(s, st).ops| < |s.ops|
  {
  }

  /** A caller of sync that has yet to empty the log, if it is not empty by then. */
  predicate Heading(pc: Pc) {
    !pc.ClearHead? && !pc.Leave?
  }

  /** Everybody asleep has somebody to wait for, however many callers are inside sync. */
  ghost predicate Awaited<T>(s: State<T>) {
    && (s.ops == [] && s.Full() ==> exists c :: 0 <= c < |s.callers| && Heading(s.callers[c]))
    && (s.sleepers > 0 ==>
      s.committing || s.Full() || exists c :: 0 <= c < |s.callers| && (Busy(s.callers[c]) || s.callers[c].Leave?))
    && (forall c :: 0 <= c < |s.callers| && s.callers[c] == Wait(true) ==> s.ops != [])
    && (s.committing ==> s.callers != [])
  }

  ghost predicate AwaitedInv<T>(s: State<T>) {
    if s.boot.Up? then
      Awaited(s) && (s.committing && s.io.lh == [] ==> exists c :: 0 <= c < |s.callers| && !s.callers[c].Enter?)
    else
      s.ops == [] && s.callers == [] && !s.committing && s.sleepers == 0
  }

  /** Where the k-th caller is after the c-th has left. */
  function Shift(k: nat, c: nat): nat
    requires k != c
  {
    if k < c then k else k - 1
  }

  lemma Remains(callers: seq<Pc>, c: nat, k: nat)
    requires c < |callers| && k < |callers| && k != c
    ensures Shift(k, c) < |callers| - 1 && Without(callers, c)[Shift(k, c)] == callers[k]
  {
  }

  lemma NobodyNew(callers: seq<Pc>, c: nat)
    requires c < |callers|
    ensures forall k :: 0 <= k < |callers| - 1 ==> Without(callers, c)[k] in callers
  {
  }

  /** Nothing to commit: the caller is gone and all else stays. */
  lemma AwaitedAfterEntry<T>(s: State<T>, c: nat)
    requires AwaitedInv(s) && Enabled(s, Sync(c)) && s.callers[c].Enter? && s.io.lh == []
    ensures AwaitedInv(DoSync(s, c))
  {
    hide Without;
    var t := DoSync(s, c);
    if s.sleepers > 0 && !s.committing && !s.Full() {
      var k :| 0 <= k < |s.callers| && (Busy(s.callers[k]) || s.callers[k].Leave?);
      Remains(s.callers, c, k);
    }
    if s.committing {
      var k :| 0 <= k < |s.callers| && !s.callers[k].Enter?;
      Remains(s.callers, c, k);
    }
    NobodyNew(s.callers, c);
  }

  lemma AwaitedAfterLeave<T>(s: State<T>, c: nat)
    requires AwaitedInv(s) && Enabled(s, Sync(c)) && s.callers[c].Leave?
    ensures AwaitedInv(DoSync(s, c))
  {
    hide Without;
    var t := DoSync(s, c);
    if s.ops == [] && s.Full() {
      var k :| 0 <= k < |s.callers| && Heading(s.callers[k]);
      Remains(s.callers, c, k);
    }
    NobodyNew(s.callers, c);
  }

  lemma AwaitedAfterStep<T>(s: State<T>, c: nat)
    requires AwaitedInv(s) && Enabled(s, Sync(c))
    requires !s.callers[c].Leave? && !(s.callers[c].Enter? && s.io.lh == [])
    ensures AwaitedInv(DoSync(s, c))
  {
    hide Put, HeadOf;
    var t := DoSync(s, c);
    assert !t.callers[c].Enter? && forall k :: 0 <= k < |s.callers| && k != c ==> t.callers[k] == s.callers[k];
  }

  lemma AwaitedAfterEnd<T>(s: State<T>, op: nat)
    requires AwaitedInv(s) && Enabled(s, EndOp(op))
    ensures AwaitedInv(DoEnd(s, op))
  {
    var t := DoEnd(s, op);
    if t.ops == [] && t.MustCommit() {
      assert Heading(t.callers[|t.callers| - 1]);
    }
    assert forall c :: 0 <= c < |s.callers| ==>
      t.callers[c] == s.callers[c] || (s.callers[c].Wait? && t.callers[c] == Wait(false));
  }

  lemma AwaitedKeeps<T>(s: State<T>, st: Step<T>)
    requires AwaitedInv(s) && Enabled(s, st)
    ensures AwaitedInv(Do(s, st))
  {
    hide DoSync, DoEnd, Entries, Put, HeadOf;
    match st {
      case EndOp(op) => AwaitedAfterEnd(s, op);
      case CallSync =>
        assert forall c :: 0 <= c < |s.callers| ==> Do(s, st).callers[c] == s.callers[c];
      case Sync(c) =>
        if s.callers[c].Leave? {
          AwaitedAfterLeave(s, c);
        } else if s.callers[c].Enter? && s.io.lh == [] {
          AwaitedAfterEntry(s, c);
        } else {
          AwaitedAfterStep(s, c);
        }
      case _ =>
    }
  }

  lemma {:induction false} AwaitedRun<T>(s: State<T>, steps: seq<Step<T>>)
    requires AwaitedInv(s) && Run(s, steps)
    ensures AwaitedInv(Exec(s, steps))
    decreases |steps|
  {
    hide AwaitedInv;
    if steps != [] {
      AwaitedKeeps(s, steps[0]);
      AwaitedRun(Do(s, steps[0]), steps[1..]);
    }
  }

  /**
   * With no restriction on the callers of sync: if the log is too full for an operation to begin and
   * none is in progress, a caller is on its way to empty it; and a sleeper in begin_op has the flag,
   * the full log, or a caller that will wake it to wait for.
   */
  lemma EverySleeperAwaited<T>(s: State<T>, steps: seq<Step<T>>)
    requires Init(s) && Run(s, steps) && Exec(s, steps).boot.Up?
    ensures Awaited(Exec(s, steps))
  {
    AwaitedRun(s, steps);
  }

  // ----- two callers inside sync -----

  ghost predicate Reaches(s: State<int>, t: State<int>) {
    exists steps :: Run(s, steps) && Exec(s, steps) == t
  }

  lemma Then(s: State<int>, t: State<int>, st: Step<int>, u: State<int>)
    requires Reaches(s, t) && Enabled(t, st) && u == Do(t, st)
    ensures Reaches(s, u)
  {
    var steps :| Run(s, steps) && Exec(s, steps) == t;
    RunAppend(s, steps, st);
  }

  /** Five blocks, of which the log has the first three. */
  function Small(head: Head, blocks: seq<int>, mem: seq<int>, lh: seq<nat>): Io<int> {
    Io(Area(0, 3), Disk(head, blocks), mem, lh)
  }

  const ZeroHead: Head := seq(128, _ => 0)
  const Quiet0: seq<seq<int>> := [[0, 0, 0, 0, 0]]
  const Quiet1: seq<seq<int>> := [[0, 0, 0, 0, 0], [0, 0, 0, 1, 0]]

  lemma ReachesSelf(s: State<int>)
    ensures Reaches(s, s)
  {
    assert Run(s, []) && Exec(s, []) == s;
  }

  /** An operation writes block 3 and ends. */
  lemma OperationEnds(s: State<int>)
    requires s == State(Small(ZeroHead, [0, 0, 0, 0, 0], [0, 0, 0, 0, 0], []), Up, [], false, [], 0, Quiet0, 0, 0)
    ensures Reaches(s,
      State(Small(ZeroHead, [0, 0, 0, 0, 0], [0, 0, 0, 1, 0], [3]), Up, [], false, [], 0, Quiet1, 0, 0))
  {
    hide Reaches;
    ReachesSelf(s);
    var io := Small(ZeroHead, [0, 0, 0, 0, 0], [0, 0, 0, 1, 0], [3]);
    var s1 := s.(ops := [0]);
    Then(s, s, BeginOp, s1);
    var s2 := s.(io := io, ops := [1]);
    assert [0, 0, 0, 0, 0][3 := 1] == [0, 0, 0, 1, 0];
    Then(s, s1, LogWrite(0, 3, 1), s2);
    assert Without(s2.ops, 0) == [] && WakeSync([]) == [];
    Then(s, s2, EndOp(0), s.(io := io, quiet := Quiet1));
  }

  /** Two callers enter sync and start to write the log. */
  lemma TwoCallersEnter(s: State<int>, s3: State<int>)
    requires s3 == State(Small(ZeroHead, [0, 0, 0, 0, 0], [0, 0, 0, 1, 0], [3]), Up, [], false, [], 0, Quiet1, 0, 0)
    requires Reaches(s, s3)
    ensures Reaches(s, s3.(committing := true, callers := [LogBlock(0), LogBlock(0)]))
  {
    hide Reaches;
    Then(s, s3, CallSync, s3.(callers := [Enter]));
    Then(s, s3.(callers := [Enter]), CallSync, s3.(callers := [Enter, Enter]));
    var s4 := s3.(committing := true);
    Then(s, s3.(callers := [Enter, Enter]), Sync(0), s3.(callers := [Seen, Enter]));
    Then(s, s3.(callers := [Seen, Enter]), Sync(1), s3.(callers := [Seen, Seen]));
    Then(s, s3.(callers := [Seen, Seen]), Sync(0), s4.(callers := [Wait(false), Seen]));
    Then(s, s4.(callers := [Wait(false), Seen]), Sync(1), s4.(callers := [Wait(false), Wait(false)]));
    Then(s, s4.(callers := [Wait(false), Wait(false)]), Sync(0), s4.(callers := [LogBlock(0), Wait(false)]));
    Then(s, s4.(callers := [LogBlock(0), Wait(false)]), Sync(1), s4.(callers := [LogBlock(0), LogBlock(0)]));
  }

  /** The first caller writes the log and the header. */
  lemma FirstCallerCommits(s: State<int>, s4: State<int>)
    requires s4 == State(Small(ZeroHead, [0, 0, 0, 0, 0], [0, 0, 0, 1, 0], [3]), Up, [], true,
                         [LogBlock(0), LogBlock(0)], 0, Quiet1, 0, 0)
    requires Reaches(s, s4)
    ensures Reaches(s, s4.(io := Small(HeadOf(ZeroHead, [3]), [0, 1, 0, 0, 0], [0, 0, 0, 1, 0], [3]), point := 1,
                           callers := [Install(0), LogBlock(0)]))
  {
    hide Reaches;
    var mem := [0, 0, 0, 1, 0];
    assert [0, 0, 0, 0, 0][1 := 1] == [0, 1, 0, 0, 0];
    var s5 := s4.(io := Small(ZeroHead, [0, 1, 0, 0, 0], mem, [3]));
    Then(s, s4, Sync(0), s5.(callers := [LogBlock(1), LogBlock(0)]));
    Then(s, s5.(callers := [LogBlock(1), LogBlock(0)]), Sync(0), s5.(callers := [PutHead, LogBlock(0)]));
    var s6 := s5.(io := Small(HeadOf(ZeroHead, [3]), [0, 1, 0, 0, 0], mem, [3]), point := 1);
    Then(s, s5.(callers := [PutHead, LogBlock(0)]), Sync(0), s6.(callers := [Install(0), LogBlock(0)]));
  }

  /** It installs the block, clears the header and leaves. */
  lemma FirstCallerLeaves(s: State<int>, s6: State<int>) returns (t: State<int>)
    requires s6 == State(Small(HeadOf(ZeroHead, [3]), [0, 1, 0, 0, 0], [0, 0, 0, 1, 0], [3]), Up, [], true,
                         [Install(0), LogBlock(0)], 0, Quiet1, 1, 0)
    requires Reaches(s, s6)
    ensures Reaches(s, t) && EntryCountOk(t.io.disk.head)
    ensures t == State(Small(t.io.disk.head, [0, 1, 0, 1, 0], [0, 0, 0, 1, 0], []), Up, [], false,
                       [LogBlock(0)], 0, Quiet1, 1, 1)
  {
    hide Reaches;
    var mem := [0, 0, 0, 1, 0];
    var h := HeadOf(ZeroHead, [3]);
    assert [0, 1, 0, 0, 0][3 := 1] == [0, 1, 0, 1, 0];
    var s7 := s6.(io := Small(h, [0, 1, 0, 1, 0], mem, [3]));
    Then(s, s6, Sync(0), s7.(callers := [Install(1), LogBlock(0)]));
    var s8 := s7.(io := Small(h, [0, 1, 0, 1, 0], mem, []), callers := [ClearHead, LogBlock(0)]);
    Then(s, s7.(callers := [Install(1), LogBlock(0)]), Sync(0), s8);
    var s9 := s8.(io := Small(HeadOf(h, []), [0, 1, 0, 1, 0], mem, []), synced := 1, callers := [Leave, LogBlock(0)]);
    Then(s, s8, Sync(0), s9);
    assert Without(s9.callers, 0) == [LogBlock(0)];
    t := s9.(committing := false, callers := [LogBlock(0)]);
    Then(s, s9, Sync(0), t);
  }

  /** Another operation begins and writes block 4, and the second caller commits it. */
  lemma SecondCallerCommits(s: State<int>, t: State<int>) returns (u: State<int>)
    requires t == State(Small(t.io.disk.head, [0, 1, 0, 1, 0], [0, 0, 0, 1, 0], []), Up, [], false,
                        [LogBlock(0)], 0, Quiet1, 1, 1)
    requires Reaches(s, t)
    ensures Reaches(s, u) && EntryCountOk(u.io.disk.head) && Entries(u.io.disk.head) == [4]
    ensures u == State(Small(u.io.disk.head, [0, 7, 0, 1, 0], [0, 0, 0, 1, 7], [4]), Up, [1], false,
                       [Install(0)], 0, Quiet1, 1, 1)
  {
    hide Reaches;
    Then(s, t, BeginOp, t.(ops := [0]));
    assert [0, 0, 0, 1, 0][4 := 7] == [0, 0, 0, 1, 7] && [0, 1, 0, 1, 0][1 := 7] == [0, 7, 0, 1, 0];
    var t2 := t.(io := Small(t.io.disk.head, [0, 1, 0, 1, 0], [0, 0, 0, 1, 7], [4]), ops := [1]);
    Then(s, t.(ops := [0]), LogWrite(0, 4, 7), t2);
    var t3 := t2.(io := Small(t.io.disk.head, [0, 7, 0, 1, 0], [0, 0, 0, 1, 7], [4]));
    Then(s, t2, Sync(0), t3.(callers := [LogBlock(1)]));
    Then(s, t3.(callers := [LogBlock(1)]), Sync(0), t3.(callers := [PutHead]));
    u := t3.(io := Small(HeadOf(t.io.disk.head, [4]), [0, 7, 0, 1, 0], [0, 0, 0, 1, 7], [4]), callers := [Install(0)]);
    Then(s, t3.(callers := [PutHead]), Sync(0), u);
  }

  /**
   * sync sets `committing` without looking at it first. If a second caller enters sync while the
   * first is inside, it can go on after the first has finished and commit an operation that is still
   * in progress: here block 4 becomes durable before its operation ends. Such a run has two callers
   * on their way to commit at once.
   */
  lemma SecondCallerBreaksAtomicity()
    ensures exists s: State<int>, steps ::
      Init(s) && Run(s, steps) && !GuardedRun(s, steps) && !CrashSafe(Exec(s, steps))
  {
    var s := State(Small(ZeroHead, [0, 0, 0, 0, 0], [0, 0, 0, 0, 0], []), Up, [], false, [], 0, Quiet0, 0, 0);
    assert Init(s);
    OperationEnds(s);
    var s3 := State(Small(ZeroHead, [0, 0, 0, 0, 0], [0, 0, 0, 1, 0], [3]), Up, [], false, [], 0, Quiet1, 0, 0);
    TwoCallersEnter(s, s3);
    var s4 := s3.(committing := true, callers := [LogBlock(0), LogBlock(0)]);
    FirstCallerCommits(s, s4);
    var t := FirstCallerLeaves(s,
      s4.(io := Small(HeadOf(ZeroHead, [3]), [0, 1, 0, 0, 0], [0, 0, 0, 1, 0], [3]), point := 1,
                                      callers := [Install(0), LogBlock(0)]));
    var u := SecondCallerCommits(s, t);
    assert Recoverable(u.io.disk, u.io.area);
    RecoveredBlocks(u.io.disk, u.io.area);
    assert Recovered(u.io.disk, u.io.area).blocks[Entries(u.io.disk.head)[0]] == 7;
    assert !CrashSafe(u);
    var steps :| Run(s, steps) && Exec(s, steps) == u;
    if GuardedRun(s, steps) {
      CrashSafeRun(s, steps);
    }
  }
}
