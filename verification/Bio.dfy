/** bio.c: the buffer cache, a ring of buffers in order of use, coherent with the disk. */
module Bio {
  import opened Collections
  import opened Ring

  const NBUF: nat := 60
  const ROOTDEV: nat := 1

  /** `locked` is the buffer's sleep lock; `dev` is 0 until the buffer is first used. */
  datatype Buf<T> = Buf(dev: nat, blockno: nat, valid: bool, dirty: bool, locked: bool, refcnt: nat, data: T) {
    predicate Holds(b: nat) {
      dev == ROOTDEV && blockno == b
    }

    /** bget may take it for another block. */
    predicate Idle() {
      refcnt == 0 && !dirty
    }
  }

  /**
   * At most one buffer for a block; a valid one holds the latest contents `mem`, and if it is neither
   * dirty nor locked so does the disk; the dirty buffers are those of the blocks that the log has pinned.
   */
  ghost predicate Coherent<T>(bs: seq<Buf<T>>, disk: seq<T>, mem: seq<T>, pinned: set<nat>) {
    && |mem| == |disk|
    && (forall i :: 0 <= i < |bs| ==> Proper(bs[i], disk, mem))
    && (forall i, j :: 0 <= i < j < |bs| && bs[i].dev == ROOTDEV && bs[j].dev == ROOTDEV ==>
      bs[i].blockno != bs[j].blockno)
    && (forall b {:trigger HasValid(bs, b)} :: 0 <= b < |disk| && mem[b] != disk[b] ==> HasValid(bs, b))
    && (forall b {:trigger HasDirty(bs, b)} :: b in pinned ==> HasDirty(bs, b))
    && (forall i :: 0 <= i < |bs| && bs[i].dirty ==> bs[i].blockno in pinned)
  }

  /** Some buffer has block `b`, with its contents; or changed and not written. */
  ghost predicate HasValid<T>(bs: seq<Buf<T>>, b: nat) {
    exists i :: 0 <= i < |bs| && bs[i].Holds(b) && bs[i].valid
  }

  ghost predicate HasDirty<T>(bs: seq<Buf<T>>, b: nat) {
    exists i :: 0 <= i < |bs| && bs[i].Holds(b) && bs[i].dirty
  }

  ghost predicate Proper<T>(x: Buf<T>, disk: seq<T>, mem: seq<T>)
    requires |mem| == |disk|
  {
    && (x.dev == 0 || (x.dev == ROOTDEV && x.blockno < |disk|))
    && (x.dev == 0 ==> !x.valid && !x.locked)
    && (x.dirty ==> x.valid)
    && (x.locked ==> x.refcnt > 0)
    && (x.valid ==> x.data == mem[x.blockno])
    && (x.valid && !x.dirty && !x.locked ==> x.data == disk[x.blockno])
  }

  /** Taking an idle buffer for another block loses nothing. */
  lemma RecycleKeeps<T>(bs: seq<Buf<T>>, disk: seq<T>, mem: seq<T>, pinned: set<nat>, i: nat, b: nat)
    requires Coherent(bs, disk, mem, pinned) && i < |bs| && bs[i].Idle() && b < |disk|
    requires forall j :: 0 <= j < |bs| ==> !bs[j].Holds(b)
    ensures Coherent(bs[i := Buf(ROOTDEV, b, false, false, false, 1, bs[i].data)], disk, mem, pinned)
  {
    var cs := bs[i := Buf(ROOTDEV, b, false, false, false, 1, bs[i].data)];
    forall c | 0 <= c < |disk| && mem[c] != disk[c]
      ensures HasValid(cs, c)
    {
      assert HasValid(bs, c);
      var j :| 0 <= j < |bs| && bs[j].Holds(c) && bs[j].valid;
      assert j != i;
      assert cs[j].Holds(c) && cs[j].valid;
    }
    forall c | c in pinned
      ensures HasDirty(cs, c)
    {
      assert HasDirty(bs, c);
      var j :| 0 <= j < |bs| && bs[j].Holds(c) && bs[j].dirty;
      assert cs[j].Holds(c) && cs[j].dirty;
    }
  }

  /** A change to one buffer that keeps its block, and what it says of `mem` and the disk. */
  lemma UpdateKeeps<T>(bs: seq<Buf<T>>, disk: seq<T>, mem: seq<T>, pinned: set<nat>, i: nat, x: Buf<T>, disk': seq<T>,
      mem': seq<T>, pinned': set<nat>)
    requires Coherent(bs, disk, mem, pinned) && i < |bs| && bs[i].dev == ROOTDEV && x.Holds(bs[i].blockno)
    requires |disk'| == |disk| == |mem'| && Proper(x, disk', mem')
    requires forall b :: 0 <= b < |disk| && b != x.blockno ==> disk'[b] == disk[b] && mem'[b] == mem[b]
    requires bs[i].valid ==> x.valid
    requires mem'[x.blockno] != disk'[x.blockno] ==> x.valid
    requires pinned - {x.blockno} <= pinned' <= pinned + {x.blockno} && (x.blockno in pinned' <==> x.dirty)
    ensures Coherent(bs[i := x], disk', mem', pinned')
  {
    var cs := bs[i := x];
    forall c | 0 <= c < |disk| && mem'[c] != disk'[c]
      ensures HasValid(cs, c)
    {
      if c == x.blockno {
        assert cs[i].Holds(c);
      } else {
        assert HasValid(bs, c);
        var j :| 0 <= j < |bs| && bs[j].Holds(c) && bs[j].valid;
        assert cs[j].Holds(c) && cs[j].valid;
      }
    }
    forall c | c in pinned'
      ensures HasDirty(cs, c)
    {
      if c == x.blockno {
        assert cs[i].Holds(c);
      } else {
        assert HasDirty(bs, c);
        var j :| 0 <= j < |bs| && bs[j].Holds(c) && bs[j].dirty;
        assert cs[j].Holds(c) && cs[j].dirty;
      }
    }
  }

  /** What is known of a block from its own buffer. */
  lemma OwnBuffer<T>(bs: seq<Buf<T>>, disk: seq<T>, mem: seq<T>, pinned: set<nat>, i: nat)
    requires Coherent(bs, disk, mem, pinned) && i < |bs| && bs[i].dev == ROOTDEV
    ensures bs[i].blockno in pinned <==> bs[i].dirty
    ensures bs[i].blockno < |mem| == |disk| && (!bs[i].valid ==> mem[bs[i].blockno] == disk[bs[i].blockno])
  {
    var b := bs[i].blockno;
    if b in pinned {
      assert HasDirty(bs, b);
      var j :| 0 <= j < |bs| && bs[j].Holds(b) && bs[j].dirty;
      assert j == i;
    }
    if mem[b] != disk[b] {
      assert HasValid(bs, b);
      var j :| 0 <= j < |bs| && bs[j].Holds(b) && bs[j].valid;
      assert j == i;
    }
  }

  lemma RetainKeeps<T>(bs: seq<Buf<T>>, disk: seq<T>, mem: seq<T>, pinned: set<nat>, i: nat)
    requires Coherent(bs, disk, mem, pinned) && i < |bs| && bs[i].dev == ROOTDEV
    ensures Coherent(bs[i := bs[i].(refcnt := bs[i].refcnt + 1)], disk, mem, pinned)
  {
    OwnBuffer(bs, disk, mem, pinned, i);
    UpdateKeeps(bs, disk, mem, pinned, i, bs[i].(refcnt := bs[i].refcnt + 1), disk, mem, pinned);
  }

  lemma LockKeeps<T>(bs: seq<Buf<T>>, disk: seq<T>, mem: seq<T>, pinned: set<nat>, i: nat)
    requires Coherent(bs, disk, mem, pinned) && i < |bs| && bs[i].dev == ROOTDEV && bs[i].refcnt > 0
    ensures Coherent(bs[i := bs[i].(locked := true)], disk, mem, pinned)
    ensures bs[i].blockno < |mem| && (bs[i].valid ==> bs[i].data == mem[bs[i].blockno]) && (bs[i].dirty ==> bs[i].valid)
  {
    OwnBuffer(bs, disk, mem, pinned, i);
    UpdateKeeps(bs, disk, mem, pinned, i, bs[i].(locked := true), disk, mem, pinned);
  }

  lemma LockedProper<T>(bs: seq<Buf<T>>, disk: seq<T>, mem: seq<T>, pinned: set<nat>, i: nat)
    requires Coherent(bs, disk, mem, pinned) && i < |bs| && bs[i].locked
    ensures |mem| == |disk| && Proper(bs[i], disk, mem) && bs[i].dev == ROOTDEV
    ensures bs[i].blockno in pinned <==> bs[i].dirty
    ensures !bs[i].valid ==> mem[bs[i].blockno] == disk[bs[i].blockno]
  {
    assert Proper(bs[i], disk, mem);
    OwnBuffer(bs, disk, mem, pinned, i);
  }

  lemma FreshCoherent<T>(bs: seq<Buf<T>>, d: seq<T>)
    requires forall i :: 0 <= i < |bs| ==> bs[i].dev == 0 && !bs[i].valid && !bs[i].dirty && !bs[i].locked
    ensures Coherent(bs, d, d, {})
  {
  }

  /** One block write. */
  function Store<T>(blocks: seq<T>, b: nat, v: T): (r: seq<T>)
    ensures |r| == |blocks| && forall c :: 0 <= c < |r| ==> r[c] == if c == b then v else blocks[c]
  {
    if b < |blocks| then blocks[b := v] else blocks
  }

  class Bcache<T> {
    const bufs: array<Buf<T>>
    const next: array<nat>
    const prev: array<nat>
    var disk: seq<T>
    ghost var order: seq<nat>   // the ring, most recently used first
    ghost var mem: seq<T>       // the latest contents of every block
    ghost var pinned: set<nat>  // the blocks in the log header, and one that bwrite is about to write

    ghost predicate Ordered()
      reads this, next, prev
    {
      && next != prev && next.Length == prev.Length == NBUF + 1
      && IsRing(next[..], prev[..], NBUF, order)
      && |order| == NBUF && forall k :: 0 <= k < NBUF ==> order[k] < NBUF
    }

    ghost predicate Valid()
      reads this, bufs, next, prev
    {
      && bufs.Length == NBUF && Ordered()
      && Coherent(bufs[..], disk, mem, pinned)
    }

    /** binit: every buffer is pushed to the front of the ring in turn. */
    constructor (d: seq<T>, blank: T)
      ensures Valid() && fresh(bufs) && fresh(next) && fresh(prev)
      ensures disk == d && mem == d && pinned == {}
      ensures forall k :: 0 <= k < NBUF ==> order[k] == NBUF - 1 - k
    {
      hide IsRing, Coherent;
      bufs := new Buf<T>[NBUF](_ => Buf(0, 0, false, false, false, 0, blank));
      next := new nat[NBUF + 1](_ => NBUF);
      prev := new nat[NBUF + 1](_ => NBUF);
      disk, order, mem, pinned := d, [], d, {};
      new;
      EmptyRing(next[..], prev[..], NBUF);
      var b := 0;
      while b < NBUF
        invariant b <= NBUF && |order| == b && disk == mem == d && pinned == {}
        invariant IsRing(next[..], prev[..], NBUF, order)
        invariant forall k :: 0 <= k < b ==> order[k] == b - 1 - k
        invariant forall i :: 0 <= i < NBUF ==> bufs[i] == Buf(0, 0, false, false, false, 0, blank)
        modifies next, prev, this`order
      {
        PushFront(b);
        b := b + 1;
      }
      FreshCoherent(bufs[..], d);
    }

    /** Link buffer `b` in at the head of the ring. */
    method PushFront(b: nat)
      requires b < NBUF && next != prev && next.Length == prev.Length == NBUF + 1
      requires IsRing(next[..], prev[..], NBUF, order) && b !in order
      modifies next, prev, this`order
      ensures IsRing(next[..], prev[..], NBUF, order) && order == [b] + old(order)
    {
      PushedFront(next[..], prev[..], NBUF, order, b);
      var f := next[NBUF];
      next[b] := f;
      prev[b] := NBUF;
      prev[f] := b;
      next[NBUF] := b;
      order := [b] + order;
      assert next[..] == old(next[..])[b := f][NBUF := b];
      assert prev[..] == old(prev[..])[b := NBUF][f := b];
    }

    /** The buffer that holds the block, if there is one, from the front of the ring. */
    method Find(blockno: nat) returns (i: nat)
      requires Valid()
      ensures i == NBUF <==> forall j :: 0 <= j < NBUF ==> !bufs[j].Holds(blockno)
      ensures i < NBUF ==> bufs[i].Holds(blockno)
      ensures i <= NBUF
    {
      hide Coherent, IsRing;
      Ends(next[..], prev[..], NBUF, order);
      i := next[NBUF];
      ghost var k := 0;
      while i != NBUF
        invariant 0 <= k <= NBUF && i == (if k < NBUF then order[k] else NBUF)
        invariant forall j :: 0 <= j < k ==> !bufs[order[j]].Holds(blockno)
        decreases NBUF - k
      {
        if bufs[i].Holds(blockno) {
          return;
        }
        Steps(next[..], prev[..], NBUF, order, k);
        i := next[i];
        k := k + 1;
      }
      Complete(order, NBUF);
      forall j | 0 <= j < NBUF
        ensures !bufs[j].Holds(blockno)
      {
        assert j in order;
      }
    }

    /** The least recently used buffer that may be taken, from the back of the ring. */
    method Oldest() returns (i: nat, ghost k: int)
      requires Valid()
      ensures i <= NBUF
      ensures i == NBUF <==> forall j :: 0 <= j < NBUF ==> !bufs[j].Idle()
      ensures i < NBUF ==> 0 <= k < NBUF && order[k] == i && bufs[i].Idle() && forall j :: k < j < NBUF ==>
        !bufs[order[j]].Idle()
    {
      hide Coherent, IsRing;
      Ends(next[..], prev[..], NBUF, order);
      i := prev[NBUF];
      k := NBUF - 1;
      while i != NBUF
        invariant -1 <= k < NBUF && i == (if k >= 0 then order[k] else NBUF)
        invariant forall j :: k < j < NBUF ==> !bufs[order[j]].Idle()
        decreases k + 1
      {
        if bufs[i].Idle() {
          return;
        }
        Steps(next[..], prev[..], NBUF, order, k);
        i := prev[i];
        k := k - 1;
      }
      Complete(order, NBUF);
      forall j | 0 <= j < NBUF
        ensures !bufs[j].Idle()
      {
        assert j in order;
      }
    }

    /**
     * bget up to where it sleeps on the buffer's lock: the block's own buffer, or else the least recently
     * used buffer that is idle; NBUF stands for the panic, which happens exactly when neither exists.
     */
    method Bget(blockno: nat) returns (i: nat)
      requires Valid() && blockno < |disk|
      modifies bufs
      ensures Valid() && i <= NBUF
      ensures i == NBUF ==> bufs[..] == old(bufs[..])
      ensures i == NBUF <==> forall j :: 0 <= j < NBUF ==> !old(bufs[j]).Holds(blockno) && !old(bufs[j]).Idle()
      ensures i < NBUF ==> bufs[i].Holds(blockno) && bufs[i].refcnt == old(bufs[i]).refcnt + 1
      ensures i < NBUF && old(bufs[i]).Holds(blockno) ==>
        bufs[..] == old(bufs[..])[i := old(bufs[i]).(refcnt := bufs[i].refcnt)]
      ensures i < NBUF && !old(bufs[i]).Holds(blockno) ==>
        && old(bufs[i]).Idle()
        && bufs[..] == old(bufs[..])[i := Buf(ROOTDEV, blockno, false, false, false, 1, old(bufs[i]).data)]
        && exists k :: 0 <= k < NBUF && order[k] == i && forall j :: k < j < NBUF ==> !old(bufs[order[j]]).Idle()
    {
      hide Coherent, IsRing;
      i := Find(blockno);
      if i < NBUF {
        RetainKeeps(bufs[..], disk, mem, pinned, i);
        bufs[i] := bufs[i].(refcnt := bufs[i].refcnt + 1);
        return;
      }
      ghost var k;
      i, k := Oldest();
      if i < NBUF {
        RecycleKeeps(bufs[..], disk, mem, pinned, i, blockno);
        bufs[i] := Buf(ROOTDEV, blockno, false, false, false, 1, bufs[i].data);
      }
    }

    /** iderw on a locked buffer: a dirty one is written, an invalid one is read. */
    method Iderw(i: nat)
      requires Valid() && i < NBUF && bufs[i].locked && (!bufs[i].valid || bufs[i].dirty)
      modifies bufs, this`disk, this`pinned
      ensures Valid()
      ensures old(bufs[i]).dirty ==>
        && bufs[..] == old(bufs[..])[i := old(bufs[i]).(dirty := false, valid := true)]
        && disk == Store(old(disk), bufs[i].blockno, bufs[i].data) && pinned == old(pinned) - {bufs[i].blockno}
      ensures !old(bufs[i]).dirty ==>
        && bufs[..] == old(bufs[..])[i := old(bufs[i]).(valid := true, data := old(mem[bufs[i].blockno]))]
        && disk == old(disk) && pinned == old(pinned)
    {
      hide Coherent, IsRing;
      LockedProper(bufs[..], disk, mem, pinned, i);
      var x := bufs[i];
      if x.dirty {
        x := x.(dirty := false, valid := true);
        UpdateKeeps(bufs[..], disk, mem, pinned, i, x, disk[x.blockno := x.data], mem, pinned - {x.blockno});
        disk := disk[x.blockno := x.data];
        pinned := pinned - {x.blockno};
      } else {
        x := x.(valid := true, data := disk[x.blockno]);
        UpdateKeeps(bufs[..], disk, mem, pinned, i, x, disk, mem, pinned);
      }
      bufs[i] := x;
    }

    /**
     * bread from where bget got the buffer and its lock is free: whatever happened in between, the caller
     * sees the latest contents of the block.
     */
    method Bread(i: nat)
      requires Valid() && i < NBUF && bufs[i].dev == ROOTDEV && bufs[i].refcnt > 0 && !bufs[i].locked
      modifies bufs, this`disk, this`pinned
      ensures Valid() && disk == old(disk) && pinned == old(pinned)
      ensures bufs[..] == old(bufs[..])[i := old(bufs[i]).(locked := true, valid := true,
        data := old(mem[bufs[i].blockno]))]
    {
      hide Coherent, IsRing;
      LockKeeps(bufs[..], disk, mem, pinned, i);
      bufs[i] := bufs[i].(locked := true);
      if !bufs[i].valid {
        Iderw(i);
      }
    }

    /** The holder of the buffer changes its data. */
    method Modify(i: nat, v: T)
      requires Valid() && i < NBUF && bufs[i].locked && bufs[i].valid
      modifies bufs, this`mem
      ensures Valid() && mem == Store(old(mem), bufs[i].blockno, v)
      ensures bufs[..] == old(bufs[..])[i := old(bufs[i]).(data := v)]
    {
      hide Coherent, IsRing;
      LockedProper(bufs[..], disk, mem, pinned, i);
      var x := bufs[i].(data := v);
      UpdateKeeps(bufs[..], disk, mem, pinned, i, x, disk, mem[x.blockno := v], pinned);
      bufs[i] := x;
      mem := mem[x.blockno := v];
    }

    /** log_write pins the buffer of a block that is in the log header by marking it dirty. */
    method Pin(i: nat)
      requires Valid() && i < NBUF && bufs[i].locked && bufs[i].valid
      modifies bufs, this`pinned
      ensures Valid() && pinned == old(pinned) + {bufs[i].blockno}
      ensures bufs[..] == old(bufs[..])[i := old(bufs[i]).(dirty := true)]
    {
      hide Coherent, IsRing;
      LockedProper(bufs[..], disk, mem, pinned, i);
      var x := bufs[i].(dirty := true);
      UpdateKeeps(bufs[..], disk, mem, pinned, i, x, disk, mem, pinned + {x.blockno});
      bufs[i] := x;
      pinned := pinned + {x.blockno};
    }

    /** bwrite: the disk gets the buffer's contents, and the buffer is clean again. */
    method Bwrite(i: nat)
      requires Valid() && i < NBUF && bufs[i].locked && bufs[i].valid
      modifies bufs, this`disk, this`pinned
      ensures Valid() && disk == Store(old(disk), bufs[i].blockno, bufs[i].data)
        && pinned == old(pinned) - {bufs[i].blockno}
      ensures bufs[..] == old(bufs[..])[i := old(bufs[i]).(dirty := false)]
    {
      hide Coherent, IsRing;
      LockedProper(bufs[..], disk, mem, pinned, i);
      var x := bufs[i].(dirty := true);
      UpdateKeeps(bufs[..], disk, mem, pinned, i, x, disk, mem, pinned + {x.blockno});
      bufs[i] := x;
      pinned := pinned + {x.blockno};
      Iderw(i);
    }

    /**
     * brelse. A caller that changed the data has handed it to bwrite or to log_write first. The last user
     * gone, the buffer becomes the most recently used and the others keep their order.
     */
    method Brelse(i: nat)
      requires Valid() && i < NBUF && bufs[i].locked
      requires bufs[i].valid ==> bufs[i].dirty || bufs[i].data == disk[bufs[i].blockno]
      modifies bufs, next, prev, this`order
      ensures Valid()
      ensures bufs[..] == old(bufs[..])[i := old(bufs[i]).(locked := false, refcnt := old(bufs[i]).refcnt - 1)]
      ensures old(bufs[i]).refcnt > 1 ==> order == old(order)
      ensures old(bufs[i]).refcnt == 1 ==>
        exists k :: 0 <= k < NBUF && old(order)[k] == i && order == [i] + Without(old(order), k)
    {
      hide Coherent, IsRing;
      LockedProper(bufs[..], disk, mem, pinned, i);
      var x := bufs[i].(locked := false, refcnt := bufs[i].refcnt - 1);
      UpdateKeeps(bufs[..], disk, mem, pinned, i, x, disk, mem, pinned);
      bufs[i] := x;
      if bufs[i].refcnt == 0 {
        ToFront(i);
      }
    }

    method ToFront(i: nat)
      requires Ordered() && i < NBUF
      modifies next, prev, this`order
      ensures Ordered()
      ensures exists k :: 0 <= k < NBUF && old(order)[k] == i && order == [i] + Without(old(order), k)
    {
      hide IsRing;
      RingDistinct(next[..], prev[..], NBUF, order);
      Complete(order, NBUF);
      assert i in order;
      ghost var k :| 0 <= k < NBUF && order[k] == i;
      Unlinked(next[..], prev[..], NBUF, order, k);
      var n, p := next[i], prev[i];
      prev[n] := p;
      next[p] := n;
      order := Without(order, k);
      assert next[..] == old(next[..])[p := n];
      assert prev[..] == old(prev[..])[n := p];
      PushFront(i);
    }
  }
}
