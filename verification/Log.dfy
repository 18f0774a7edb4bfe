/** log.c as it runs: the global `log`, updated in place, over a disk and the buffers pinned in the cache. */
module Log {
  import opened Collections
  import opened LogSpec
  import LogCommit
  import LogRuns

  /** How a call of sync comes back to its caller's lock: nothing to do, gone to sleep, or committed. */
  datatype Outcome = Empty | Asleep | Done

  /** What bread returns for each block: the pinned buffer if there is one, else the disk. */
  ghost function Overlay<T>(blocks: seq<T>, dirty: map<nat, T>): (mem: seq<T>)
    ensures |mem| == |blocks|
    ensures forall b :: 0 <= b < |blocks| ==> mem[b] == if b in dirty then dirty[b] else blocks[b]
  {
    seq(|blocks|, b requires 0 <= b < |blocks| => if b in dirty then dirty[b] else blocks[b])
  }

  /** Memory with nothing pinned is the disk. */
  lemma NothingPinned<T>(blocks: seq<T>, x: seq<T>, y: seq<T>, a: Area)
    requires SameHome(x, y, a) && SameHome(blocks, y, a)
    ensures SameHome(x, Overlay(blocks, map[]), a)
  {
  }

  /** A pinned buffer is what bread returns. */
  lemma PinnedOver<T>(blocks: seq<T>, dirty: map<nat, T>, b: nat, v: T)
    requires b < |blocks|
    ensures |Overlay(blocks, dirty)| == |blocks|
    ensures Overlay(blocks, dirty[b := v]) == Overlay(blocks, dirty)[b := v]
  {
  }

  class Log<T> {
    const area: Area
    var disk: Disk<T>
    var dirty: map<nat, T>          // buffers with B_DIRTY set by log_write
    var lh: seq<nat>                // log.lh.block[0 .. log.lh.n]
    var outstanding: nat
    var committing: bool
    ghost var writes: seq<Write<T>> // every block write so far

    ghost predicate Valid()
      reads this
    {
      && area.Fits(disk)
      && GoodEntries(lh, area, |disk.blocks|)
      && (forall b :: b in dirty <==> b in lh)
    }

    ghost function Mem(): seq<T>
      reads this
    {
      Overlay(disk.blocks, dirty)
    }

    /** The part of the state machine's state that these methods share. */
    ghost function Io(): LogRuns.Io<T>
      reads this
    {
      LogRuns.Io(area, disk, Mem(), lh)
    }

    /** This log is where the state machine is; blocks of the log itself do not count as memory. */
    ghost predicate Shows(s: LogRuns.State<T>)
      reads this
    {
      && s.boot.Up? && s.io.area == area && s.io.disk == disk && s.io.lh == lh
      && SameHome(s.io.mem, Mem(), area)
      && |s.ops| == outstanding && s.committing == committing
    }

    /** The kernel has just booted on the disk `d`. */
    constructor (a: Area, d: Disk<T>)
      ensures area == a && disk == d && dirty == map[] && lh == [] && outstanding == 0 && !committing && writes == []
    {
      area, disk, dirty, lh, outstanding, committing := a, d, map[], [], 0, false;
      writes := [];
    }

    function Bread(b: nat): T
      reads this
      requires b < |disk.blocks|
    {
      if b in dirty then dirty[b] else disk.blocks[b]
    }

    /** bwrite: the block goes to the disk and its buffer is no longer dirty. */
    method Bwrite(b: nat, v: T)
      requires b < |disk.blocks|
      modifies this`disk, this`dirty, this`writes
      ensures disk == Put(old(disk), ToBlock(b, v)) && dirty == old(dirty) - {b}
      ensures writes == old(writes) + [ToBlock(b, v)]
    {
      disk := disk.(blocks := disk.blocks[b := v]);
      dirty := dirty - {b};
      writes := writes + [ToBlock(b, v)];
    }

    /** Copy modified blocks from cache to log. */
    method WriteLog()
      requires Valid()
      modifies this`disk, this`dirty, this`writes
      ensures var ws := LogWrites(area, lh, old(Mem()));
        disk == Apply(old(disk), ws) && writes == old(writes) + ws
      ensures dirty == old(dirty)
    {
      hide Apply, LogWrites;
      ghost var ws := LogWrites(area, lh, Mem());
      LogWritesAt(area, lh, Mem());
      ApplyNone(disk, ws);
      var tail := 0;
      while tail < |lh|
        invariant tail <= |lh|
        invariant disk == Apply(old(disk), ws[..tail]) && writes == old(writes) + ws[..tail]
        invariant dirty == old(dirty)
      {
        ApplyStep(old(disk), ws, tail);
        assert ws[..tail + 1] == ws[..tail] + [ws[tail]];
        Bwrite(area.start + tail + 1, Bread(lh[tail]));
        assert area.start + tail + 1 !in dirty;
        tail := tail + 1;
      }
      assert ws[..|lh|] == ws;
    }

    /** Write the in-memory log header to disk. */
    method WriteHead()
      requires |lh| <= LOGSIZE
      modifies this`disk, this`writes
      ensures disk == Put(old(disk), ToHead(HeadOf(old(disk.head), lh)))
      ensures writes == old(writes) + [ToHead(HeadOf(old(disk.head), lh))]
    {
      var hb: seq<nat> := disk.head[0 := |lh|];
      var i := 0;
      while i < |lh|
        invariant i <= |lh| && |hb| == 128
        invariant hb == [|lh|] + lh[..i] + disk.head[i + 1..]
      {
        hb := hb[i + 1 := lh[i]];
        i := i + 1;
      }
      disk := disk.(head := hb);
      writes := writes + [ToHead(hb)];
    }

    /** Copy committed blocks from the log to their home locations. */
    method InstallTrans()
      requires area.Fits(disk) && GoodEntries(lh, area, |disk.blocks|)
      requires forall b :: area.Holds(b) ==> b !in dirty
      modifies this`disk, this`dirty, this`writes
      ensures var ws := InstallWrites(area, lh, old(disk.blocks));
        disk == Apply(old(disk), ws) && writes == old(writes) + ws
      ensures forall b :: b in dirty <==> b in old(dirty) && b !in lh
      ensures forall b :: b in dirty ==> dirty[b] == old(dirty)[b]
    {
      hide Apply;
      ghost var ws := InstallWrites(area, lh, disk.blocks);
      ApplyNone(disk, ws);
      var tail := 0;
      while tail < |lh|
        invariant tail <= |lh|
        invariant disk == Apply(old(disk), ws[..tail]) && writes == old(writes) + ws[..tail]
        invariant forall b :: area.Holds(b) ==> disk.blocks[b] == old(disk.blocks[b])
        invariant forall b :: b in dirty <==> b in old(dirty) && b !in lh[..tail]
        invariant forall b :: b in dirty ==> dirty[b] == old(dirty)[b]
      {
        ApplyStep(old(disk), ws, tail);
        assert ws[..tail + 1] == ws[..tail] + [ws[tail]];
        assert area.Holds(area.start + tail + 1);
        var data := Bread(area.start + tail + 1);
        Bwrite(lh[tail], data);
        tail := tail + 1;
      }
      assert ws[..|lh|] == ws && lh[..|lh|] == lh;
    }

    /** Read the log header from disk into the in-memory log header. */
    method ReadHead()
      requires EntryCountOk(disk.head)
      modifies this`lh
      ensures lh == Entries(disk.head)
    {
      lh := [];
      var i := 0;
      while i < disk.head[0]
        invariant i <= disk.head[0]
        invariant lh == disk.head[1..i + 1]
      {
        lh := lh + [disk.head[i + 1]];
        i := i + 1;
      }
    }

    /**
     * At boot: install what the log holds and clear it. Whatever block write a crash follows,
     * the next boot ends the same.
     */
    method RecoverFromLog()
      requires Recoverable(disk, area) && dirty == map[]
      modifies this`disk, this`dirty, this`writes, this`lh
      ensures disk == Recovered(old(disk), area) && lh == [] && dirty == map[]
      ensures LogEmpty(disk, area) && Valid()
      ensures writes == old(writes) + RecoverWrites(old(disk), area)
      ensures Atomic(old(disk), area, RecoverWrites(old(disk), area), 0, disk.blocks, disk.blocks)
    {
      hide Atomic, Recovered, RecoverWrites, InstallWrites, Apply, HeadOf, Put, SameHome;
      RecoveredBlocks(disk, area);
      RecoveryAtomic(disk, area);
      RecoverInOrder(disk, area);
      ReadHead();
      InstallTrans();
      lh := [];
      WriteHead();
    }

    /**
     * The commit of what log_write recorded. All of it survives a crash after the header write, and
     * none of it a crash before; at the end the homes hold what was in memory.
     */
    method Commit()
      requires Valid() && LogEmpty(disk, area)
      modifies this`disk, this`dirty, this`writes, this`lh
      ensures Valid() && LogEmpty(disk, area) && lh == [] && dirty == map[]
      ensures writes == old(writes) + CommitWrites(old(disk), area, old(lh), old(Mem()))
      ensures disk == Apply(old(disk), CommitWrites(old(disk), area, old(lh), old(Mem())))
      ensures SameHome(disk.blocks, old(Mem()), area)
      ensures Atomic(old(disk), area, CommitWrites(old(disk), area, old(lh), old(Mem())), |old(lh)|, old(disk.blocks),
        old(Mem()))
    {
      hide Atomic, CommitWrites, LogWrites, InstallWrites, Apply, HeadOf, Put, SameHome, Overlay, Recoverable;
      CommitFacts();
      if |lh| > 0 {
        WriteLog();
        WriteHead();
        InstallTrans();
        assert dirty == map[];
        lh := [];
        WriteHead();
      }
    }

    /** What the writes of a commit from here amount to, stage by stage. */
    lemma CommitFacts()
      requires Valid() && LogEmpty(disk, area)
      ensures var ws := CommitWrites(disk, area, lh, Mem());
        && Atomic(disk, area, ws, |lh|, disk.blocks, Mem())
        && LogEmpty(Apply(disk, ws), area) && SameHome(Apply(disk, ws).blocks, Mem(), area)
        && (lh == [] ==> ws == [] && Apply(disk, ws) == disk && dirty == map[])
        && (lh != [] ==>
              var d1 := Apply(disk, LogWrites(area, lh, Mem()));
              var d2 := Put(d1, ToHead(HeadOf(d1.head, lh)));
              var d3 := Apply(d2, InstallWrites(area, lh, d2.blocks));
              && ws == LogWrites(area, lh, Mem()) + [ToHead(HeadOf(d1.head, lh))]
                       + InstallWrites(area, lh, d2.blocks) + [ToHead(HeadOf(d3.head, []))]
              && Apply(disk, ws) == Put(d3, ToHead(HeadOf(d3.head, []))))
    {
      var mem := Mem();
      CommitAtomic(disk, area, lh, mem);
      CommitEffect(disk, area, lh, mem);
      if lh != [] {
        CommitInOrder(disk, area, lh, mem);
      }
    }

    /**
     * One pass of begin_op's loop: the machine's step. The caller sleeps, or the log still has room
     * for everything that the operations in progress and this one may write.
     */
    method BeginOp(ghost s: LogRuns.State<T>) returns (slept: bool, ghost t: LogRuns.State<T>)
      requires Shows(s)
      modifies this`outstanding
      ensures t == LogRuns.Do(s, LogRuns.BeginOp) && Shows(t)
      ensures slept <==> t.sleepers == s.sleepers + 1
      ensures !slept ==> outstanding == old(outstanding) + 1 && |lh| + outstanding * MAXOPBLOCKS <= LOGSIZE
      ensures LogRuns.Reserved(|lh|, s.ops) ==> LogRuns.Reserved(|lh|, t.ops)
    {
      hide LogRuns.Reserved, Overlay;
      t := LogRuns.Do(s, LogRuns.BeginOp);
      if committing || |lh| + (outstanding + 1) * MAXOPBLOCKS > LOGSIZE {
        return true, t;
      }
      if LogRuns.Reserved(|lh|, s.ops) {
        LogRuns.BeginReserves(|lh|, s.ops);
      }
      outstanding := outstanding + 1;
      return false, t;
    }

    /** Record a modified buffer, and pin it in the cache. */
    method LogWrite(b: nat, v: T) returns (panic: bool)
      requires Valid() && b < |disk.blocks| && !area.Holds(b)
      modifies this`lh, this`dirty
      ensures panic <==> old(|lh| >= LOGSIZE || |lh| >= area.size - 1 || outstanding < 1)
      ensures panic ==> lh == old(lh) && dirty == old(dirty)
      ensures !panic ==> Valid() && Io() == LogRuns.Record(old(Io()), b, v)
      ensures !panic ==> |Mem()| == |old(Mem())| && Mem()[b] == v
      ensures !panic ==> forall c :: 0 <= c < |Mem()| && c != b ==> Mem()[c] == old(Mem())[c]
      ensures !panic ==> lh == if b in old(lh) then old(lh) else old(lh) + [b]
    {
      hide Overlay;
      PinnedOver(disk.blocks, dirty, b, v);
      if |lh| >= LOGSIZE || |lh| >= area.size - 1 || outstanding < 1 {
        return true;
      }
      var i := 0;
      while i < |lh| && lh[i] != b
        invariant i <= |lh|
        invariant b !in lh[..i]
      {
        i := i + 1;
      }
      if i < |lh| {
        lh := lh[i := b];
        assert lh == old(lh);
      } else {
        lh := lh + [b];
      }
      dirty := dirty[b := v];
      return false;
    }

    /**
     * The machine's step: the last operation to end wakes the callers asleep in sync, and becomes one
     * itself if the log is too full for another operation.
     */
    method EndOp(ghost s: LogRuns.State<T>, ghost op: nat) returns (commit: bool, ghost t: LogRuns.State<T>)
      requires Shows(s) && op < |s.ops|
      modifies this`outstanding, this`committing
      ensures t == LogRuns.Do(s, LogRuns.EndOp(op)) && Shows(t)
      ensures commit <==> t.callers == LogRuns.WakeSync(s.callers) + [LogRuns.Enter]
      ensures commit ==> outstanding == 0 && committing
      ensures !commit && outstanding == 0 ==> !t.Full()
    {
      hide Overlay;
      t := LogRuns.Do(s, LogRuns.EndOp(op));
      commit := false;
      outstanding := outstanding - 1;
      if outstanding == 0 && |lh| + MAXOPBLOCKS > LOGSIZE {
        commit := true;
        committing := true;
      }
    }

    /** What a call of sync leaves when it has committed. */
    twostate predicate Committed()
      reads this
    {
      && lh == [] && dirty == map[] && !committing
      && SameHome(disk.blocks, old(Mem()), area)
      && old(GoodEntries(lh, area, |Mem()|))
      && var ws := CommitWrites(old(disk), area, old(lh), old(Mem()));
        writes == old(writes) + ws && Atomic(old(disk), area, ws, |old(lh)|, old(disk.blocks), old(Mem()))
    }

    /**
     * sync from the start: the caller's own steps of the machine. With operations in progress it goes
     * to sleep with `committing` set; otherwise the disk ends up holding everything that was in memory.
     */
    method Sync(ghost s: LogRuns.State<T>, ghost c: nat) returns (r: Outcome, ghost t: LogRuns.State<T>)
      requires Valid() && LogEmpty(disk, area) && Shows(s)
      requires c < |s.callers| && s.callers[c] == LogRuns.Enter && s.quiet != []
      modifies this`disk, this`dirty, this`writes, this`lh, this`committing
      ensures Valid() && LogEmpty(disk, area) && Shows(t) && LogCommit.Own(s, c, t)
      ensures r.Empty? <==> old(lh) == []
      ensures r.Asleep? <==> old(lh) != [] && outstanding > 0
      ensures r.Empty? ==> committing == old(committing)
      ensures r.Asleep? ==> committing && t.callers == s.callers[c := LogRuns.Wait(true)]
      ensures !r.Done? ==> disk == old(disk) && dirty == old(dirty) && lh == old(lh) && writes == old(writes)
      ensures r.Done? ==> Committed()
      ensures !r.Asleep? ==> t.callers == Without(s.callers, c)
    {
      hide Atomic, CommitWrites, Apply, SameHome, Overlay, LogCommit.Own;
      t := LogRuns.Do(s, LogRuns.Sync(c));
      LogCommit.OwnStep(s, c);
      if |lh| == 0 {
        return Empty, t;
      }
      ghost var seen := t;
      t := LogRuns.Do(seen, LogRuns.Sync(c));
      LogCommit.OwnStep(seen, c);
      LogCommit.OwnThen(s, c, seen, t);
      committing := true;
      if outstanding > 0 {
        return Asleep, t;
      }
      ghost var u := t;
      assert Without(u.callers, c) == Without(s.callers, c);
      r, t := Woken(u, c);
      LogCommit.OwnThen(s, c, u, t);
    }

    /** sync from the test of its wait loop: after a wakeup, or on the way in. */
    method Woken(ghost s: LogRuns.State<T>, ghost c: nat) returns (r: Outcome, ghost t: LogRuns.State<T>)
      requires Valid() && LogEmpty(disk, area) && Shows(s)
      requires c < |s.callers| && s.callers[c] == LogRuns.Wait(false) && s.quiet != []
      modifies this`disk, this`dirty, this`writes, this`lh, this`committing
      ensures Valid() && LogEmpty(disk, area) && Shows(t) && LogCommit.Own(s, c, t)
      ensures r == if outstanding > 0 then Asleep else Done
      ensures r.Asleep? ==> t == LogRuns.Goto(s, c, LogRuns.Wait(true))
      ensures r.Asleep? ==>
        disk == old(disk) && dirty == old(dirty) && lh == old(lh) && writes == old(writes)
        && committing == old(committing)
      ensures r.Done? ==> Committed() && t.callers == Without(s.callers, c)
    {
      hide Atomic, CommitWrites, Apply, SameHome, Overlay, LogCommit.Own;
      ghost var u := LogRuns.Do(s, LogRuns.Sync(c));
      LogCommit.OwnStep(s, c);
      if outstanding > 0 {
        return Asleep, u;
      }
      t := AfterCommit(u, c);
      Commit();
      NothingPinned(disk.blocks, t.io.mem, old(Mem()), area);
      committing := false;
      LogCommit.OwnThen(s, c, u, t);
      return Done, t;
    }

    /** Where the machine is once the caller that is about to commit has left. */
    ghost method AfterCommit(u: LogRuns.State<T>, c: nat) returns (t: LogRuns.State<T>)
      requires Valid() && LogEmpty(disk, area) && Shows(u) && u.quiet != [] && u.ops == []
      requires c < |u.callers| && u.callers[c] == if lh == [] then LogRuns.Leave else LogRuns.LogBlock(0)
      ensures LogCommit.Own(u, c, t)
      ensures t.boot.Up? && t.io.area == area && t.io.lh == [] && t.io.mem == u.io.mem && t.ops == [] && !t.committing
      ensures t.io.disk == Apply(disk, CommitWrites(disk, area, lh, Mem()))
      ensures t.callers == Without(u.callers, c)
    {
      hide Apply, LogCommit.Own, Overlay;
      if lh == [] {
        t := LogRuns.Do(u, LogRuns.Sync(c));
        LogCommit.OwnStep(u, c);
        ApplyNone(disk, CommitWrites(disk, area, lh, Mem()));
      } else {
        LogCommit.SameWrites(disk, area, lh, Mem(), u.io.mem);
        LogCommit.WholeCommit(u, c);
        t := LogCommit.Finished(u, c);
      }
    }
  }
}
