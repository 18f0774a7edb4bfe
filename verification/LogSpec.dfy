/** log.c: the on-disk redo log, its writes in order, and what recovery makes of any disk. */
module LogSpec {
  const MAXOPBLOCKS: nat := 20
  const LOGSIZE: nat := 3 * MAXOPBLOCKS

  /** The words of a header block: the count, then room for LOGSIZE block numbers and a tail. */
  type Head = h: seq<nat> | |h| == 128 witness seq(128, _ => 0)

  /** The disk: block `area.start` is the log header, every other block `b` holds `blocks[b]`. */
  datatype Disk<T> = Disk(head: Head, blocks: seq<T>)

  /** One atomic block write, as in iderw. */
  datatype Write<T> = ToBlock(at: nat, data: T) | ToHead(words: Head)

  function Put<T>(d: Disk<T>, w: Write<T>): (r: Disk<T>)
    ensures |r.blocks| == |d.blocks|
  {
    match w
    case ToHead(h) => d.(head := h)
    case ToBlock(b, v) => if b < |d.blocks| then d.(blocks := d.blocks[b := v]) else d
  }

  /** The disk after the writes `ws`, in order. */
  function Apply<T>(d: Disk<T>, ws: seq<Write<T>>): (r: Disk<T>)
    ensures |r.blocks| == |d.blocks|
  {
    if ws == [] then d else Put(Apply(d, ws[..|ws| - 1]), ws[|ws| - 1])
  }

  /** The log area: a header block at `start`, then `size - 1` data blocks. */
  datatype Area = Area(start: nat, size: nat) {
    predicate Holds(b: int) {
      start <= b < start + size
    }
    predicate Fits<T>(d: Disk<T>) {
      1 <= size && start + size <= |d.blocks|
    }
  }

  /** Block numbers that the log can carry: distinct, on the disk, outside the log itself. */
  ghost predicate GoodEntries(lh: seq<nat>, a: Area, n: nat) {
    && |lh| <= LOGSIZE
    && |lh| < a.size
    && (forall i :: 0 <= i < |lh| ==> lh[i] < n && !a.Holds(lh[i]))
    && (forall i, j :: 0 <= i < j < |lh| ==> lh[i] != lh[j])
  }

  /** The header block that write_head leaves: the count, then the entries, stale words after them. */
  function HeadOf(h: Head, lh: seq<nat>): (r: Head)
    requires |lh| <= LOGSIZE
    ensures EntryCountOk(r) && Entries(r) == lh
  {
    [|lh|] + lh + h[|lh| + 1..]
  }

  /** read_head trusts the count, so it must be in bounds. */
  predicate EntryCountOk(h: Head) {
    h[0] <= LOGSIZE
  }

  function Entries(h: Head): seq<nat>
    requires EntryCountOk(h)
  {
    h[1..h[0] + 1]
  }

  /** A disk whose header recovery can follow. */
  ghost predicate Recoverable<T>(d: Disk<T>, a: Area) {
    a.Fits(d) && EntryCountOk(d.head) && GoodEntries(Entries(d.head), a, |d.blocks|)
  }

  ghost predicate LogEmpty<T>(d: Disk<T>, a: Area) {
    a.Fits(d) && d.head[0] == 0
  }

  /** Equal everywhere outside the log area. */
  ghost predicate SameHome<T>(x: seq<T>, y: seq<T>, a: Area) {
    |x| == |y| && forall b :: 0 <= b < |x| && !a.Holds(b) ==> x[b] == y[b]
  }

  // ----- the writes of log.c, in order -----

  /** write_log: the cached contents `mem` of the logged blocks go to the log. */
  function LogWrites<T>(a: Area, lh: seq<nat>, mem: seq<T>): (ws: seq<Write<T>>)
    requires forall i :: 0 <= i < |lh| ==> lh[i] < |mem|
  {
    seq(|lh|, i requires 0 <= i < |lh| => ToBlock(a.start + 1 + i, mem[lh[i]]))
  }

  /** install_trans: the log's data blocks go to their home locations. */
  function InstallWrites<T>(a: Area, lh: seq<nat>, blocks: seq<T>): (ws: seq<Write<T>>)
    requires a.start + 1 + |lh| <= |blocks|
  {
    seq(|lh|, i requires 0 <= i < |lh| => ToBlock(lh[i], blocks[a.start + 1 + i]))
  }

  /** recover_from_log: install what the header names, then clear the header. */
  ghost function RecoverWrites<T>(d: Disk<T>, a: Area): (ws: seq<Write<T>>)
    requires Recoverable(d, a)
  {
    InstallWrites(a, Entries(d.head), d.blocks) + [ToHead(HeadOf(d.head, []))]
  }

  ghost function Recovered<T>(d: Disk<T>, a: Area): (r: Disk<T>)
    requires Recoverable(d, a)
    ensures |r.blocks| == |d.blocks|
  {
    Apply(d, RecoverWrites(d, a))
  }

  /** What install_trans writes once the log holds `mem`. */
  function HomeWrites<T>(lh: seq<nat>, mem: seq<T>): (ws: seq<Write<T>>)
    requires forall i :: 0 <= i < |lh| ==> lh[i] < |mem|
  {
    seq(|lh|, i requires 0 <= i < |lh| => ToBlock(lh[i], mem[lh[i]]))
  }

  /** commit: write_log, write_head, install_trans, write_head with n == 0. */
  ghost function CommitWrites<T>(d: Disk<T>, a: Area, lh: seq<nat>, mem: seq<T>): (ws: seq<Write<T>>)
    requires GoodEntries(lh, a, |mem|)
  {
    if lh == [] then []
    else
      LogWrites(a, lh, mem)
      + [ToHead(HeadOf(d.head, lh))]
      + HomeWrites(lh, mem)
      + [ToHead(HeadOf(HeadOf(d.head, lh), []))]
  }

  // ----- laws of Apply -----

  lemma {:induction false} ApplyConcat<T>(d: Disk<T>, xs: seq<Write<T>>, ys: seq<Write<T>>)
    ensures Apply(d, xs + ys) == Apply(Apply(d, xs), ys)
    decreases |ys|
  {
    if ys == [] {
      assert xs + ys == xs;
    } else {
      var zs := xs + ys;
      assert zs[..|zs| - 1] == xs + ys[..|ys| - 1];
      ApplyConcat(d, xs, ys[..|ys| - 1]);
    }
  }

  /** A block that no write names keeps its contents, and so does a header that no write names. */
  lemma {:induction false} ApplyFrame<T>(d: Disk<T>, ws: seq<Write<T>>, b: nat)
    requires b < |d.blocks|
    requires forall i :: 0 <= i < |ws| ==> ws[i].ToHead? || ws[i].at != b
    ensures Apply(d, ws).blocks[b] == d.blocks[b]
  {
    if ws != [] {
      ApplyFrame(d, ws[..|ws| - 1], b);
    }
  }

  lemma {:induction false} ApplyHeadFrame<T>(d: Disk<T>, ws: seq<Write<T>>)
    requires forall i :: 0 <= i < |ws| ==> ws[i].ToBlock?
    ensures Apply(d, ws).head == d.head
  {
    if ws != [] {
      ApplyHeadFrame(d, ws[..|ws| - 1]);
    }
  }

  /** A block gets the data of the last write that names it. */
  lemma {:induction false} ApplyHit<T>(d: Disk<T>, ws: seq<Write<T>>, k: nat)
    requires k < |ws| && ws[k].ToBlock? && ws[k].at < |d.blocks|
    requires forall i :: k < i < |ws| ==> ws[i].ToHead? || ws[i].at != ws[k].at
    ensures Apply(d, ws).blocks[ws[k].at] == ws[k].data
  {
    if k < |ws| - 1 {
      ApplyHit(d, ws[..|ws| - 1], k);
    }
  }

  // ----- a crash inside recovery -----

  /** Recovery copies each logged block home, touches no other block and empties the log. */
  lemma RecoveredBlocks<T>(d: Disk<T>, a: Area)
    requires Recoverable(d, a)
    ensures LogEmpty(Recovered(d, a), a)
    ensures forall i :: 0 <= i < |Entries(d.head)| ==>
              Recovered(d, a).blocks[Entries(d.head)[i]] == d.blocks[a.start + 1 + i]
    ensures forall b :: 0 <= b < |d.blocks| && b !in Entries(d.head) ==>
              Recovered(d, a).blocks[b] == d.blocks[b]
  {
    var lh := Entries(d.head);
    var ws := RecoverWrites(d, a);
    forall i | 0 <= i < |lh|
      ensures Apply(d, ws).blocks[lh[i]] == d.blocks[a.start + 1 + i]
    {
      ApplyHit(d, ws, i);
    }
    forall b | 0 <= b < |d.blocks| && b !in lh
      ensures Apply(d, ws).blocks[b] == d.blocks[b]
    {
      ApplyFrame(d, ws, b);
    }
  }

  /** The two stages of recovery. */
  lemma RecoverInOrder<T>(d: Disk<T>, a: Area)
    requires Recoverable(d, a)
    ensures var ws := InstallWrites(a, Entries(d.head), d.blocks);
      var e := Apply(d, ws);
      && e.head == d.head
      && RecoverWrites(d, a) == ws + [ToHead(HeadOf(e.head, []))]
      && Recovered(d, a) == Put(e, ToHead(HeadOf(e.head, [])))
  {
    var ws := InstallWrites(a, Entries(d.head), d.blocks);
    ApplyHeadFrame(d, ws);
    assert RecoverWrites(d, a)[..|ws|] == ws;
  }

  /** Disks with equal logs that agree on every home block the log does not name recover to equal homes. */
  lemma RecoveryReadsLog<T>(d: Disk<T>, e: Disk<T>, a: Area)
    requires Recoverable(d, a) && e.head == d.head && |e.blocks| == |d.blocks|
    requires forall b :: a.start < b <= a.start + |Entries(d.head)| ==> e.blocks[b] == d.blocks[b]
    requires forall b :: 0 <= b < |d.blocks| && !a.Holds(b) && b !in Entries(d.head) ==> e.blocks[b] == d.blocks[b]
    ensures Recoverable(e, a) && SameHome(Recovered(e, a).blocks, Recovered(d, a).blocks, a)
  {
    hide Recovered;
    var lh := Entries(d.head);
    RecoveredBlocks(d, a);
    RecoveredBlocks(e, a);
    forall b | 0 <= b < |d.blocks| && !a.Holds(b)
      ensures Recovered(e, a).blocks[b] == Recovered(d, a).blocks[b]
    {
      if b in lh {
        var i :| 0 <= i < |lh| && lh[i] == b;
      }
    }
  }

  /** Recovery of a disk with an empty log changes no block. */
  lemma RecoverEmpty<T>(d: Disk<T>, a: Area)
    requires LogEmpty(d, a)
    ensures Recoverable(d, a) && SameHome(Recovered(d, a).blocks, d.blocks, a)
  {
    hide Recovered;
    RecoveredBlocks(d, a);
  }

  /** A crash after any `k` writes of recovery: recovering again gives the same homes. */
  lemma CrashInRecovery<T>(d: Disk<T>, a: Area, k: nat)
    requires Recoverable(d, a) && k <= |RecoverWrites(d, a)|
    ensures var e := Apply(d, RecoverWrites(d, a)[..k]);
      Recoverable(e, a) && SameHome(Recovered(e, a).blocks, Recovered(d, a).blocks, a)
  {
    var ws := RecoverWrites(d, a);
    var e := Apply(d, ws[..k]);
    if k == |ws| {
      assert ws[..k] == ws;
      RecoveredBlocks(d, a);
      RecoverEmpty(e, a);
    } else {
      ApplyHeadFrame(d, ws[..k]);
      forall b | 0 <= b < |d.blocks| && b !in Entries(d.head)
        ensures e.blocks[b] == d.blocks[b]
      {
        ApplyFrame(d, ws[..k], b);
      }
      RecoveryReadsLog(d, e, a);
    }
  }

  /**
   * Wherever a crash cuts the writes `ws` short, recovery leaves the homes of `before` up
   * to write `n`, else of `after`.
   */
  ghost predicate Atomic<T>(d: Disk<T>, a: Area, ws: seq<Write<T>>, n: nat, before: seq<T>, after: seq<T>) {
    forall k {:trigger ws[..k]} :: 0 <= k <= |ws| ==>
      && Recoverable(Apply(d, ws[..k]), a)
      && SameHome(Recovered(Apply(d, ws[..k]), a).blocks, if k <= n then before else after, a)
  }

  lemma RecoveryAtomic<T>(d: Disk<T>, a: Area)
    requires Recoverable(d, a)
    ensures Atomic(d, a, RecoverWrites(d, a), 0, Recovered(d, a).blocks, Recovered(d, a).blocks)
  {
    var ws := RecoverWrites(d, a);
    forall k {:trigger ws[..k]} | 0 <= k <= |ws|
      ensures Recoverable(Apply(d, ws[..k]), a)
      ensures SameHome(Recovered(Apply(d, ws[..k]), a).blocks, Recovered(d, a).blocks, a)
    {
      CrashInRecovery(d, a, k);
    }
  }

  /** The disk after a crash in the `ks[0]`-th write of recovery, then in the `ks[1]`-th of the next, and so on. */
  ghost function AfterCrashes<T>(d: Disk<T>, a: Area, ks: seq<nat>): (r: Disk<T>)
    requires Recoverable(d, a)
    ensures Recoverable(r, a) && SameHome(Recovered(r, a).blocks, Recovered(d, a).blocks, a)
    decreases |ks|
  {
    if ks == [] then d
    else
      var ws := RecoverWrites(d, a);
      var k := if ks[0] <= |ws| then ks[0] else |ws|;
      CrashInRecovery(d, a, k);
      AfterCrashes(Apply(d, ws[..k]), a, ks[1..])
  }

  // ----- a crash inside commit -----

  /** Before commit: an empty log, and `mem` differs from the disk only in the blocks to be logged. */
  ghost predicate CommitReady<T>(d: Disk<T>, a: Area, lh: seq<nat>, mem: seq<T>) {
    && LogEmpty(d, a)
    && |mem| == |d.blocks|
    && GoodEntries(lh, a, |mem|)
    && (forall b :: 0 <= b < |mem| && !a.Holds(b) && b !in lh ==> mem[b] == d.blocks[b])
  }

  /** A crash after any `k` writes of commit: all of the transaction if the header write was among them, else none. */
  lemma CrashInCommit<T>(d: Disk<T>, a: Area, lh: seq<nat>, mem: seq<T>, k: nat)
    requires CommitReady(d, a, lh, mem) && k <= |CommitWrites(d, a, lh, mem)|
    ensures var e := Apply(d, CommitWrites(d, a, lh, mem)[..k]);
      && Recoverable(e, a)
      && SameHome(Recovered(e, a).blocks, if k <= |lh| then d.blocks else mem, a)
  {
    var ws := CommitWrites(d, a, lh, mem);
    if k <= |lh| {
      BeforeHeader(d, a, lh, mem, k);
    } else if k < |ws| {
      AfterHeader(d, a, lh, mem, k);
    } else {
      assert ws[..k] == ws;
      CommitEffect(d, a, lh, mem);
      RecoverEmpty(Apply(d, ws), a);
    }
  }

  lemma CommitAtomic<T>(d: Disk<T>, a: Area, lh: seq<nat>, mem: seq<T>)
    requires CommitReady(d, a, lh, mem)
    ensures Atomic(d, a, CommitWrites(d, a, lh, mem), |lh|, d.blocks, mem)
  {
    var ws := CommitWrites(d, a, lh, mem);
    forall k {:trigger ws[..k]} | 0 <= k <= |ws|
      ensures Recoverable(Apply(d, ws[..k]), a)
      ensures SameHome(Recovered(Apply(d, ws[..k]), a).blocks, if k <= |lh| then d.blocks else mem, a)
    {
      CrashInCommit(d, a, lh, mem, k);
    }
  }

  lemma BeforeHeader<T>(d: Disk<T>, a: Area, lh: seq<nat>, mem: seq<T>, k: nat)
    requires CommitReady(d, a, lh, mem) && k <= |CommitWrites(d, a, lh, mem)| && k <= |lh|
    ensures var e := Apply(d, CommitWrites(d, a, lh, mem)[..k]);
      Recoverable(e, a) && SameHome(Recovered(e, a).blocks, d.blocks, a)
  {
    var ws := CommitWrites(d, a, lh, mem)[..k];
    var e := Apply(d, ws);
    ApplyHeadFrame(d, ws);
    forall b | 0 <= b < |d.blocks| && !a.Holds(b)
      ensures e.blocks[b] == d.blocks[b]
    {
      ApplyFrame(d, ws, b);
    }
    RecoverEmpty(e, a);
  }

  lemma AfterHeader<T>(d: Disk<T>, a: Area, lh: seq<nat>, mem: seq<T>, k: nat)
    requires CommitReady(d, a, lh, mem) && |lh| < k < |CommitWrites(d, a, lh, mem)|
    ensures var e := Apply(d, CommitWrites(d, a, lh, mem)[..k]);
      Recoverable(e, a) && SameHome(Recovered(e, a).blocks, mem, a)
  {
    var ws := CommitWrites(d, a, lh, mem)[..k];
    var e := Apply(d, ws);
    HeaderDuringCommit(d, a, lh, mem, k);
    RecoveredBlocks(e, a);
    OtherHomes(d, a, lh, mem, k);
    forall b | 0 <= b < |mem| && !a.Holds(b) && b in lh
      ensures Recovered(e, a).blocks[b] == mem[b]
    {
      var i :| 0 <= i < |lh| && lh[i] == b;
      LoggedData(d, a, lh, mem, k, i);
    }
  }

  /** Once written, the log block of an entry keeps its data to the end of commit. */
  lemma LoggedData<T>(d: Disk<T>, a: Area, lh: seq<nat>, mem: seq<T>, k: nat, i: nat)
    requires CommitReady(d, a, lh, mem) && i < |lh| < k <= |CommitWrites(d, a, lh, mem)|
    ensures Apply(d, CommitWrites(d, a, lh, mem)[..k]).blocks[a.start + 1 + i] == mem[lh[i]]
  {
    var ws := CommitWrites(d, a, lh, mem)[..k];
    assert ws[i] == ToBlock(a.start + 1 + i, mem[lh[i]]);
    ApplyHit(d, ws, i);
  }

  /** The writes of commit, one by one. */
  lemma CommitShape<T>(d: Disk<T>, a: Area, lh: seq<nat>, mem: seq<T>)
    requires GoodEntries(lh, a, |mem|) && lh != []
    ensures var ws, n := CommitWrites(d, a, lh, mem), |lh|;
      && |ws| == 2 * n + 2 && ws[n] == ToHead(HeadOf(d.head, lh))
        && ws[2 * n + 1] == ToHead(HeadOf(HeadOf(d.head, lh), []))
      && (forall i :: 0 <= i < n ==> ws[i] == ToBlock(a.start + 1 + i, mem[lh[i]]))
      && (forall i :: n < i <= 2 * n ==> ws[i] == ToBlock(lh[i - n - 1], mem[lh[i - n - 1]]))
  {
    hide LogWrites, HomeWrites, HeadOf;
    LogWritesAt(a, lh, mem);
    HomeWritesAt(lh, mem);
  }

  lemma LogWritesAt<T>(a: Area, lh: seq<nat>, mem: seq<T>)
    requires forall i :: 0 <= i < |lh| ==> lh[i] < |mem|
    ensures var w := LogWrites(a, lh, mem); |w| == |lh| && forall i :: 0 <= i < |lh| ==>
      w[i] == ToBlock(a.start + 1 + i, mem[lh[i]])
  {
  }

  lemma HomeWritesAt<T>(lh: seq<nat>, mem: seq<T>)
    requires forall i :: 0 <= i < |lh| ==> lh[i] < |mem|
    ensures var w := HomeWrites(lh, mem); |w| == |lh| && forall i :: 0 <= i < |lh| ==>
      w[i] == ToBlock(lh[i], mem[lh[i]])
  {
  }

  lemma ApplyNone<T>(d: Disk<T>, ws: seq<Write<T>>)
    ensures Apply(d, ws[..0]) == d
  {
  }

  lemma ApplyStep<T>(d: Disk<T>, ws: seq<Write<T>>, k: nat)
    requires k < |ws|
    ensures Apply(d, ws[..k + 1]) == Put(Apply(d, ws[..k]), ws[k])
  {
    assert ws[..k + 1][..k] == ws[..k];
  }

  /** When commit ends the log is empty again and the disk holds what was in memory. */
  lemma CommitEffect<T>(d: Disk<T>, a: Area, lh: seq<nat>, mem: seq<T>)
    requires CommitReady(d, a, lh, mem)
    ensures var e := Apply(d, CommitWrites(d, a, lh, mem));
      LogEmpty(e, a) && SameHome(e.blocks, mem, a)
  {
    var ws := CommitWrites(d, a, lh, mem);
    assert ws[..|ws|] == ws;
    if lh != [] {
      HeaderDuringCommit(d, a, lh, mem, |ws|);
      OtherHomes(d, a, lh, mem, |ws|);
      AllHome(d, a, lh, mem);
    }
  }

  lemma AllHome<T>(d: Disk<T>, a: Area, lh: seq<nat>, mem: seq<T>)
    requires CommitReady(d, a, lh, mem) && lh != []
    ensures forall i :: 0 <= i < |lh| ==> Apply(d, CommitWrites(d, a, lh, mem)).blocks[lh[i]] == mem[lh[i]]
  {
    hide CommitWrites, Apply;
    var ws := CommitWrites(d, a, lh, mem);
    CommitShape(d, a, lh, mem);
    forall i | 0 <= i < |lh|
      ensures Apply(d, ws).blocks[lh[i]] == mem[lh[i]]
    {
      ApplyHit(d, ws, |lh| + 1 + i);
    }
  }

  /** The four stages of commit, each reading the disk that the stages before it left. */
  lemma CommitInOrder<T>(d: Disk<T>, a: Area, lh: seq<nat>, mem: seq<T>)
    requires CommitReady(d, a, lh, mem) && lh != []
    ensures var d1 := Apply(d, LogWrites(a, lh, mem));
      var d2 := Put(d1, ToHead(HeadOf(d1.head, lh)));
      var d3 := Apply(d2, InstallWrites(a, lh, d2.blocks));
      && d1.head == d.head && d3.head == d2.head
      && CommitWrites(d, a, lh, mem)
         == LogWrites(a, lh, mem) + [ToHead(HeadOf(d1.head, lh))]
            + InstallWrites(a, lh, d2.blocks) + [ToHead(HeadOf(d3.head, []))]
      && Apply(d, CommitWrites(d, a, lh, mem)) == Put(d3, ToHead(HeadOf(d3.head, [])))
  {
    hide Apply, HeadOf;
    var w1 := LogWrites(a, lh, mem);
    var d1 := Apply(d, w1);
    ApplyHeadFrame(d, w1);
    var h := ToHead(HeadOf(d.head, lh));
    var d2 := Put(d1, h);
    LogHolds(d, a, lh, mem);
    var w3 := InstallWrites(a, lh, d2.blocks);
    assert w3 == HomeWrites(lh, mem);
    ApplyHeadFrame(d2, w3);
    var z := ToHead(HeadOf(h.words, []));
    Stages(d, w1, h, w3, z);
  }

  lemma LogHolds<T>(d: Disk<T>, a: Area, lh: seq<nat>, mem: seq<T>)
    requires CommitReady(d, a, lh, mem)
    ensures var e := Apply(d, LogWrites(a, lh, mem));
      forall i :: 0 <= i < |lh| ==> e.blocks[a.start + 1 + i] == LogWrites(a, lh, mem)[i].data == mem[lh[i]]
  {
    hide Apply;
    var w := LogWrites(a, lh, mem);
    forall i | 0 <= i < |lh|
      ensures Apply(d, w).blocks[a.start + 1 + i] == w[i].data
    {
      ApplyHit(d, w, i);
    }
  }

  lemma Stages<T>(d: Disk<T>, w1: seq<Write<T>>, h: Write<T>, w3: seq<Write<T>>, z: Write<T>)
    ensures Apply(d, w1 + [h] + w3 + [z]) == Put(Apply(Put(Apply(d, w1), h), w3), z)
  {
    assert (w1 + [h])[..|w1|] == w1;
    ApplyConcat(d, w1 + [h], w3);
    assert (w1 + [h] + w3 + [z])[..|w1 + [h] + w3|] == w1 + [h] + w3;
  }

  /** No write of commit names a home block outside the transaction. */
  lemma OtherHomes<T>(d: Disk<T>, a: Area, lh: seq<nat>, mem: seq<T>, k: nat)
    requires CommitReady(d, a, lh, mem) && k <= |CommitWrites(d, a, lh, mem)|
    ensures forall b :: 0 <= b < |mem| && !a.Holds(b) && b !in lh ==>
              Apply(d, CommitWrites(d, a, lh, mem)[..k]).blocks[b] == mem[b]
  {
    var ws := CommitWrites(d, a, lh, mem)[..k];
    forall b | 0 <= b < |mem| && !a.Holds(b) && b !in lh
      ensures Apply(d, ws).blocks[b] == mem[b]
    {
      ApplyFrame(d, ws, b);
    }
  }

  lemma HeaderDuringCommit<T>(d: Disk<T>, a: Area, lh: seq<nat>, mem: seq<T>, k: nat)
    requires CommitReady(d, a, lh, mem) && |lh| < k <= |CommitWrites(d, a, lh, mem)|
    ensures var h := Apply(d, CommitWrites(d, a, lh, mem)[..k]).head;
      EntryCountOk(h) && Entries(h) == if k < |CommitWrites(d, a, lh, mem)| then lh else []
  {
    hide CommitWrites, Apply, HeadOf;
    var n := |lh|;
    var all := CommitWrites(d, a, lh, mem);
    NotEmptyCommit(d, a, lh, mem);
    CommitShape(d, a, lh, mem);
    HeadEntries(d.head, lh);
    HeadEntries(HeadOf(d.head, lh), []);
    ApplyStep(d, all, k - 1);
    if n + 1 < k < |all| {
      HeaderDuringCommit(d, a, lh, mem, k - 1);
    }
  }

  lemma NotEmptyCommit<T>(d: Disk<T>, a: Area, lh: seq<nat>, mem: seq<T>)
    requires GoodEntries(lh, a, |mem|)
    ensures CommitWrites(d, a, lh, mem) != [] ==> lh != []
  {
  }

  lemma HeadEntries(h: Head, lh: seq<nat>)
    requires |lh| <= LOGSIZE
    ensures EntryCountOk(HeadOf(h, lh)) && Entries(HeadOf(h, lh)) == lh
  {
  }
}
