/** The log over the buffer cache: what memory is, and how many logged blocks leave commit a buffer. */
module LogCache {
  import opened Collections
  import opened LogSpec
  import opened LogRuns
  import Log
  import opened Bio

  // ----- memory is the disk under the pinned buffers -----

  /** The dirty buffers, by block. */
  ghost predicate DirtyData<T>(bs: seq<Buf<T>>, dirty: map<nat, T>) {
    && (forall i :: 0 <= i < |bs| && bs[i].dirty ==> bs[i].blockno in dirty && dirty[bs[i].blockno] == bs[i].data)
    && forall b :: b in dirty ==> exists i :: 0 <= i < |bs| && bs[i].dirty && bs[i].blockno == b
  }

  /** With no buffer in use, what bread returns is the pinned buffer if there is one, else the disk. */
  lemma MemoryIsOverlay<T>(bs: seq<Buf<T>>, disk: seq<T>, mem: seq<T>, pinned: set<nat>, dirty: map<nat, T>)
    requires Coherent(bs, disk, mem, pinned) && DirtyData(bs, dirty) && forall i :: 0 <= i < |bs| ==> !bs[i].locked
    ensures dirty.Keys == pinned && mem == Log.Overlay(disk, dirty)
  {
    forall b: nat | b < |disk|
      ensures mem[b] == if b in dirty then dirty[b] else disk[b]
    {
      if b in dirty {
        var i :| 0 <= i < |bs| && bs[i].dirty && bs[i].blockno == b;
        assert Proper(bs[i], disk, mem);
      } else {
        assert mem[b] != disk[b] ==> HasValid(bs, b);
      }
    }
    forall b | b in pinned
      ensures b in dirty
    {
      assert HasDirty(bs, b);
    }
  }

  // ----- how many buffers are left -----

  ghost predicate NobodyHolds<T>(bs: seq<Buf<T>>) {
    forall i :: 0 <= i < |bs| ==> bs[i].refcnt == 0
  }

  /** bget finds a buffer for block `b`. */
  ghost predicate Available<T>(bs: seq<Buf<T>>, b: nat) {
    exists i :: 0 <= i < |bs| && (bs[i].Holds(b) || bs[i].Idle())
  }

  ghost function DirtyOnes<T>(bs: seq<Buf<T>>): set<nat> {
    set i: nat | i < |bs| && bs[i].dirty
  }

  lemma {:induction false} ImageSize<T>(bs: seq<Buf<T>>, d: set<nat>, s: set<nat>)
    requires forall b :: b in s ==> exists i: nat :: i in d && i < |bs| && bs[i].blockno == b
    ensures |s| <= |d|
  {
    if b :| b in s {
      var i: nat :| i in d && i < |bs| && bs[i].blockno == b;
      forall c | c in s - {b}
        ensures exists j: nat :: j in d - {i} && j < |bs| && bs[j].blockno == c
      {
        var j: nat :| j in d && j < |bs| && bs[j].blockno == c;
        assert j in d - {i};
      }
      ImageSize(bs, d - {i}, s - {b});
    }
  }

  lemma Numbers<T>(bs: seq<Buf<T>>)
    ensures DirtyOnes(bs) <= UpTo(|bs|)
  {
  }

  /** With as many blocks pinned as there are buffers, every buffer is pinned. */
  lemma AllPinned<T>(bs: seq<Buf<T>>, disk: seq<T>, mem: seq<T>, pinned: set<nat>)
    requires Coherent(bs, disk, mem, pinned) && |pinned| >= |bs|
    ensures forall i :: 0 <= i < |bs| ==> bs[i].dirty && bs[i].blockno in pinned
  {
    var d := DirtyOnes(bs);
    forall b | b in pinned
      ensures exists i: nat :: i in d && i < |bs| && bs[i].blockno == b
    {
      assert HasDirty(bs, b);
      var i :| 0 <= i < |bs| && bs[i].Holds(b) && bs[i].dirty;
      assert i in d;
    }
    ImageSize(bs, d, pinned);
    Numbers(bs);
    forall i: nat | i < |bs|
      ensures bs[i].dirty
    {
      if !bs[i].dirty {
        assert d <= UpTo(|bs|) - {i} && i in UpTo(|bs|);
        Subset(d, UpTo(|bs|) - {i});
      }
    }
  }

  /** Dirty buffers are of different blocks. */
  lemma DirtyPinned<T>(bs: seq<Buf<T>>, disk: seq<T>, mem: seq<T>, pinned: set<nat>)
    requires Coherent(bs, disk, mem, pinned) && forall i :: 0 <= i < |bs| ==> bs[i].dirty
    ensures |bs| <= |pinned|
  {
    var numbers := seq(|bs|, i requires 0 <= i < |bs| => bs[i].blockno);
    forall i | 0 <= i < |bs|
      ensures bs[i].dev == ROOTDEV
    {
      assert Proper(bs[i], disk, mem);
    }
    Pigeonhole(numbers, pinned);
  }

  /** Nobody holding a buffer, a block outside the transaction finds one exactly if the pinned blocks leave one over. */
  lemma BufferLeft<T>(bs: seq<Buf<T>>, disk: seq<T>, mem: seq<T>, pinned: set<nat>, b: nat)
    requires Coherent(bs, disk, mem, pinned) && NobodyHolds(bs) && b !in pinned
    ensures Available(bs, b) <==> |pinned| < |bs|
  {
    if |pinned| >= |bs| {
      AllPinned(bs, disk, mem, pinned);
    } else {
      assert exists i :: 0 <= i < |bs| && !bs[i].dirty by {
        hide Coherent;
        if forall i :: 0 <= i < |bs| ==> bs[i].dirty {
          DirtyPinned(bs, disk, mem, pinned);
        }
      }
      var i :| 0 <= i < |bs| && !bs[i].dirty;
      assert bs[i].Idle();
    }
  }

  // ----- a full log -----

  /** The log is full of different blocks outside itself, which are all that differs from the disk. */
  ghost predicate FullIo<T>(io: Io<T>) {
    && |io.lh| == LOGSIZE && Distinct(io.lh) && |io.mem| == |io.disk.blocks|
    && (forall i :: 0 <= i < LOGSIZE ==> io.lh[i] < |io.mem| && !io.area.Holds(io.lh[i]))
    && forall b :: 0 <= b < |io.mem| && b !in io.lh ==> io.mem[b] == io.disk.blocks[b]
  }

  /** The steps by which three operations that filled the log end, and the last one comes to commit. */
  lemma FullLogCommits<T>(s: State<T>, v: T) returns (steps: seq<Step<T>>)
    requires Init(s) && s.io.area.size > LOGSIZE
    requires s.io.area.start + s.io.area.size + LOGSIZE <= |s.io.mem|
    ensures Run(s, steps) && ExclusiveRun(s, steps)
    ensures var t := Exec(s, steps);
      && t.boot.Up? && t.io.area == s.io.area && t.callers == [LogBlock(0)] && t.ops == []
      && FullIo(t.io)
  {
    steps := Fill(s, LOGSIZE, v);
    for k := 0 to 3
      invariant Run(s, steps) && ExclusiveRun(s, steps)
      invariant var t := Exec(s, steps); var home := s.io.area.start + s.io.area.size;
        && t.boot.Up? && t.io.area == s.io.area && |t.ops| == 3 - k
        && t.callers == (if k < 3 then [] else [Enter])
        && |t.io.lh| == LOGSIZE && (forall i :: 0 <= i < LOGSIZE ==> t.io.lh[i] == home + i)
        && |t.io.mem| == |t.io.disk.blocks| == |s.io.mem|
        && forall b :: 0 <= b < |t.io.mem| && b !in t.io.lh ==> t.io.mem[b] == t.io.disk.blocks[b]
    {
      RunAppend(s, steps, EndOp(0));
      steps := steps + [EndOp(0)];
    }
    RunAppend(s, steps, Sync(0));
    steps := steps + [Sync(0)];
    RunAppend(s, steps, Sync(0));
    steps := steps + [Sync(0)];
    RunAppend(s, steps, Sync(0));
    steps := steps + [Sync(0)];
  }

  /** The blocks of the log header. */
  ghost function Blocks(lh: seq<nat>): set<nat> {
    set b | b in lh
  }

  lemma {:induction false} BlocksCount(lh: seq<nat>)
    requires Distinct(lh)
    ensures |Blocks(lh)| == |lh|
  {
    if lh != [] {
      BlocksCount(lh[1..]);
      assert Blocks(lh) == {lh[0]} + Blocks(lh[1..]);
    }
  }

  /** A cache that holds the logged blocks, pinned, and nothing else. */
  ghost function PinnedBufs<T>(lh: seq<nat>, mem: seq<T>): (bs: seq<Buf<T>>)
    requires forall i :: 0 <= i < |lh| ==> lh[i] < |mem|
  {
    seq(|lh|, i requires 0 <= i < |lh| => Buf(ROOTDEV, lh[i], true, true, false, 0, mem[lh[i]]))
  }

  lemma PinnedCoherent<T>(lh: seq<nat>, disk: seq<T>, mem: seq<T>)
    requires Distinct(lh) && |mem| == |disk| && forall i :: 0 <= i < |lh| ==> lh[i] < |mem|
    requires forall b :: 0 <= b < |mem| && b !in lh ==> mem[b] == disk[b]
    ensures Coherent(PinnedBufs(lh, mem), disk, mem, Blocks(lh)) && NobodyHolds(PinnedBufs(lh, mem))
    ensures |PinnedBufs(lh, mem)| == |lh|
  {
    var bs := PinnedBufs(lh, mem);
    forall b | b in lh
      ensures exists i :: 0 <= i < |bs| && bs[i].Holds(b) && bs[i].dirty && bs[i].valid
    {
      var i :| 0 <= i < |lh| && lh[i] == b;
      assert bs[i].Holds(b);
    }
  }

  /**
   * Some cache holds the state's memory, with the logged blocks pinned; in each that does, block `b` finds no buffer.
   */
  ghost predicate NoBufferFor<T(!new)>(io: Io<T>, b: nat) {
    && (exists bs: seq<Buf<T>> ::
          |bs| == NBUF && Coherent(bs, io.disk.blocks, io.mem, Blocks(io.lh)) && NobodyHolds(bs))
    && forall bs: seq<Buf<T>> :: |bs| == NBUF && Coherent(bs, io.disk.blocks, io.mem, Blocks(io.lh)) ==>
      !Available(bs, b)
  }

  /**
   * There are as many buffers as the log may have blocks. On a disk whose log is long enough for the
   * reservation, some run comes to commit with every buffer pinned, and then bread of the first log block
   * finds none.
   */
  lemma FullLogStopsCommit<T(!new)>(s: State<T>, v: T)
    requires Init(s) && s.io.area.size > LOGSIZE
    requires s.io.area.start + s.io.area.size + LOGSIZE <= |s.io.mem|
    ensures exists steps ::
      && Run(s, steps) && ExclusiveRun(s, steps)
      && var t := Exec(s, steps); t.callers == [LogBlock(0)] && NoBufferFor(t.io, t.io.area.start + 1)
  {
    hide Coherent, NoBufferFor, FullIo, Run, ExclusiveRun, Exec;
    var steps := FullLogCommits(s, v);
    NothingLeft(Exec(s, steps).io);
  }

  lemma OutsideLog<T>(io: Io<T>)
    requires FullIo(io) && io.area.size > LOGSIZE
    ensures io.area.start + 1 !in Blocks(io.lh)
  {
    assert io.area.Holds(io.area.start + 1);
  }

  lemma NothingLeft<T(!new)>(io: Io<T>)
    requires FullIo(io) && io.area.size > LOGSIZE
    ensures NoBufferFor(io, io.area.start + 1)
  {
    hide Coherent, Blocks, PinnedBufs, NobodyHolds;
    BlocksCount(io.lh);
    OutsideLog(io);
    PinnedCoherent(io.lh, io.disk.blocks, io.mem);
    forall bs: seq<Buf<T>> | |bs| == NBUF && Coherent(bs, io.disk.blocks, io.mem, Blocks(io.lh))
      ensures !Available(bs, io.area.start + 1)
    {
      AllPinned(bs, io.disk.blocks, io.mem, Blocks(io.lh));
    }
  }

  /** The log that mkfs makes is one block shorter: whatever it holds, commit finds a buffer. */
  lemma ShortLogLeavesBuffer<T>(lh: seq<nat>, a: Area, bs: seq<Buf<T>>, disk: seq<T>, mem: seq<T>, b: nat)
    requires GoodEntries(lh, a, |disk|) && a.size <= LOGSIZE && a.Holds(b)
    requires |bs| == NBUF && Coherent(bs, disk, mem, Blocks(lh)) && NobodyHolds(bs)
    ensures Available(bs, b)
  {
    BlocksCount(lh);
    assert b !in Blocks(lh);
    BufferLeft(bs, disk, mem, Blocks(lh), b);
  }
}
