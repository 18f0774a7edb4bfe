/** The committer of the state machine performs the writes of commit, one by one and in order. */
module LogCommit {
  import opened Collections
  import opened LogSpec
  import opened LogRuns

  /** The c-th caller of sync is about to commit: no transaction is on its way to the disk. */
  ghost predicate AboutToCommit<T>(s: State<T>, c: nat) {
    && s.boot.Up? && c < |s.callers| && s.callers[c] == LogBlock(0)
    && s.io.lh != [] && s.quiet != []
    && CommitReady(s.io.disk, s.io.area, s.io.lh, s.io.mem)
  }

  /** Where the committer is after `k` writes of a transaction of `n` blocks. */
  function PcAfter(n: nat, k: nat): Pc {
    if k <= n then LogBlock(k) else if k <= 2 * n + 1 then Install(k - n - 1) else Leave
  }

  ghost function Writes<T>(s: State<T>): seq<Write<T>>
    requires GoodEntries(s.io.lh, s.io.area, |s.io.mem|)
  {
    CommitWrites(s.io.disk, s.io.area, s.io.lh, s.io.mem)
  }

  /** The state after the first `k` writes of the commit that starts in `s`. */
  ghost function During<T>(s: State<T>, c: nat, k: nat): State<T>
    requires AboutToCommit(s, c) && k <= |Writes(s)|
  {
    var n, last := |s.io.lh|, |s.quiet| - 1;
    s.(io := s.io.(disk := Apply(s.io.disk, Writes(s)[..k]), lh := if k < 2 * n + 2 then s.io.lh else []),
       callers := s.callers[c := PcAfter(n, k)],
       point := if k <= n then s.point else last,
       synced := if k < 2 * n + 2 then s.synced else last)
  }

  /** The header block between the two header writes. */
  lemma {:induction false} HeadDuring<T>(d: Disk<T>, a: Area, lh: seq<nat>, mem: seq<T>, k: nat)
    requires CommitReady(d, a, lh, mem) && lh != [] && |lh| < k <= 2 * |lh| + 1
    ensures k <= |CommitWrites(d, a, lh, mem)| && Apply(d, CommitWrites(d, a, lh, mem)[..k]).head == HeadOf(d.head, lh)
  {
    hide CommitWrites, Apply, HeadOf;
    var ws := CommitWrites(d, a, lh, mem);
    CommitShape(d, a, lh, mem);
    ApplyStep(d, ws, k - 1);
    if k > |lh| + 1 {
      HeadDuring(d, a, lh, mem, k - 1);
    }
  }

  lemma HeadBefore<T>(d: Disk<T>, a: Area, lh: seq<nat>, mem: seq<T>)
    requires CommitReady(d, a, lh, mem) && lh != []
    ensures |lh| <= |CommitWrites(d, a, lh, mem)| && Apply(d, CommitWrites(d, a, lh, mem)[..|lh|]).head == d.head
  {
    hide CommitWrites, Apply, HeadOf;
    CommitShape(d, a, lh, mem);
    ApplyHeadFrame(d, CommitWrites(d, a, lh, mem)[..|lh|]);
  }

  /** A caller moves twice. */
  lemma Again(callers: seq<Pc>, c: nat, p: Pc, q: Pc)
    requires c < |callers|
    ensures callers[c := p][c := q] == callers[c := q]
  {
  }

  /** What every stage may rely on. */
  lemma Entry<T>(s: State<T>, c: nat, k: nat)
    requires AboutToCommit(s, c)
    ensures |Writes(s)| == 2 * |s.io.lh| + 2
    ensures k <= |Writes(s)| ==> |Apply(s.io.disk, Writes(s)[..k]).blocks| == |s.io.mem|
    ensures |s.io.lh| <= LOGSIZE && s.io.area.start + |s.io.lh| < |s.io.mem|
    ensures forall i :: 0 <= i < |s.io.lh| ==> s.io.lh[i] < |s.io.mem|
  {
    CommitShape(s.io.disk, s.io.area, s.io.lh, s.io.mem);
  }

  lemma LogStep<T>(s: State<T>, c: nat, k: nat)
    requires AboutToCommit(s, c) && k < |s.io.lh|
    ensures |Writes(s)| == 2 * |s.io.lh| + 2
    ensures Enabled(During(s, c, k), Sync(c)) && Do(During(s, c, k), Sync(c)) == During(s, c, k + 1)
  {
    hide CommitWrites, Apply, HeadOf, GoodEntries;
    CommitShape(s.io.disk, s.io.area, s.io.lh, s.io.mem);
    Entry(s, c, k);
    Again(s.callers, c, LogBlock(k), LogBlock(k + 1));
    ApplyStep(s.io.disk, Writes(s), k);
  }

  /** From the last log block to the header write. */
  lemma HeadStep<T>(s: State<T>, c: nat)
    requires AboutToCommit(s, c)
    ensures var n := |s.io.lh|;
      && |Writes(s)| == 2 * n + 2
      && Enabled(During(s, c, n), Sync(c)) && Enabled(Do(During(s, c, n), Sync(c)), Sync(c))
      && Do(Do(During(s, c, n), Sync(c)), Sync(c)) == During(s, c, n + 1)
  {
    hide CommitWrites, Apply, HeadOf, GoodEntries;
    var n, ws := |s.io.lh|, Writes(s);
    CommitShape(s.io.disk, s.io.area, s.io.lh, s.io.mem);
    Entry(s, c, n);
    Again(s.callers, c, LogBlock(n), PutHead);
    Again(s.callers, c, PutHead, Install(0));
    ApplyStep(s.io.disk, ws, n);
    HeadBefore(s.io.disk, s.io.area, s.io.lh, s.io.mem);
  }

  /** install_trans reads back from the log what write_log put there. */
  lemma InstallsNext<T>(s: State<T>, c: nat, k: nat)
    requires AboutToCommit(s, c) && |s.io.lh| < k <= 2 * |s.io.lh|
    ensures var io := s.io.(disk := Apply(s.io.disk, Writes(s)[..k])); var i := k - |s.io.lh| - 1;
      && |Writes(s)| == 2 * |s.io.lh| + 2 && io.area.start + 1 + i < |io.disk.blocks|
      && InstallOne(io, i) == s.io.(disk := Apply(s.io.disk, Writes(s)[..k + 1]))
  {
    hide CommitWrites, Apply, HeadOf, GoodEntries;
    CommitShape(s.io.disk, s.io.area, s.io.lh, s.io.mem);
    Entry(s, c, k);
    ApplyStep(s.io.disk, Writes(s), k);
    LoggedData(s.io.disk, s.io.area, s.io.lh, s.io.mem, k, k - |s.io.lh| - 1);
  }

  lemma InstallStep<T>(s: State<T>, c: nat, k: nat)
    requires AboutToCommit(s, c) && |s.io.lh| < k <= 2 * |s.io.lh|
    ensures |Writes(s)| == 2 * |s.io.lh| + 2
    ensures Enabled(During(s, c, k), Sync(c)) && Do(During(s, c, k), Sync(c)) == During(s, c, k + 1)
  {
    hide CommitWrites, Apply, HeadOf, GoodEntries, InstallOne;
    Entry(s, c, k);
    InstallsNext(s, c, k);
    Again(s.callers, c, Install(k - |s.io.lh| - 1), Install(k - |s.io.lh|));
  }

  /** From the last home block to the write that clears the header. */
  lemma ClearStep<T>(s: State<T>, c: nat)
    requires AboutToCommit(s, c)
    ensures var k := 2 * |s.io.lh| + 1;
      && |Writes(s)| == k + 1
      && Enabled(During(s, c, k), Sync(c)) && Enabled(Do(During(s, c, k), Sync(c)), Sync(c))
      && Do(Do(During(s, c, k), Sync(c)), Sync(c)) == During(s, c, k + 1)
  {
    hide CommitWrites, Apply, HeadOf, GoodEntries;
    var k := 2 * |s.io.lh| + 1;
    CommitShape(s.io.disk, s.io.area, s.io.lh, s.io.mem);
    Entry(s, c, k);
    Again(s.callers, c, Install(|s.io.lh|), ClearHead);
    Again(s.callers, c, ClearHead, Leave);
    ApplyStep(s.io.disk, Writes(s), k);
    HeadDuring(s.io.disk, s.io.area, s.io.lh, s.io.mem, k);
  }

  ghost predicate OnlyCaller<T>(steps: seq<Step<T>>, c: nat) {
    forall i :: 0 <= i < |steps| ==> steps[i] == Sync(c)
  }

  lemma {:induction false} RunConcat<T>(s: State<T>, xs: seq<Step<T>>, ys: seq<Step<T>>)
    requires Run(s, xs) && Run(Exec(s, xs), ys)
    ensures Run(s, xs + ys) && Exec(s, xs + ys) == Exec(Exec(s, xs), ys)
    ensures GuardedRun(s, xs) && GuardedRun(Exec(s, xs), ys) ==> GuardedRun(s, xs + ys)
    decreases |xs|
  {
    if xs == [] {
      assert xs + ys == ys;
    } else {
      assert (xs + ys)[1..] == xs[1..] + ys;
      RunConcat(Do(s, xs[0]), xs[1..], ys);
    }
  }

  lemma Once<T>(s: State<T>, c: nat, t: State<T>)
    requires Enabled(s, Sync(c)) && Do(s, Sync(c)) == t
    ensures var steps: seq<Step<T>> := [Sync(c)];
      && Run(s, steps) && Exec(s, steps) == t && OnlyCaller(steps, c)
      && (OneCommitter(s, Sync(c)) ==> GuardedRun(s, steps))
  {
    var steps: seq<Step<T>> := [Sync(c)];
    assert steps[1..] == [];
  }

  /** Inside commit the guard has nothing to say. */
  lemma InsideCommit<T>(s: State<T>, c: nat, k: nat)
    requires AboutToCommit(s, c) && k < |Writes(s)|
    ensures var t := During(s, c, k);
      && OneCommitter(t, Sync(c))
      && (Enabled(t, Sync(c)) && (k == |s.io.lh| || k == 2 * |s.io.lh| + 1) ==> OneCommitter(Do(t, Sync(c)), Sync(c)))
  {
    hide CommitWrites, Apply, HeadOf, GoodEntries;
    Entry(s, c, k);
  }

  /** The steps to the next write. */
  lemma NextWrite<T>(s: State<T>, c: nat, k: nat) returns (steps: seq<Step<T>>)
    requires AboutToCommit(s, c) && k < |Writes(s)|
    ensures Run(During(s, c, k), steps) && OnlyCaller(steps, c) && Exec(During(s, c, k), steps) == During(s, c, k + 1)
    ensures GuardedRun(During(s, c, k), steps)
  {
    hide CommitWrites, Apply, HeadOf, GoodEntries, During, Do, Enabled, Run, Exec, GuardedRun, OneCommitter;
    Entry(s, c, k);
    InsideCommit(s, c, k);
    var n := |s.io.lh|;
    if k < n {
      LogStep(s, c, k);
      Once(During(s, c, k), c, During(s, c, k + 1));
      steps := [Sync(c)];
    } else if n < k <= 2 * n {
      InstallStep(s, c, k);
      Once(During(s, c, k), c, During(s, c, k + 1));
      steps := [Sync(c)];
    } else {
      if k == n {
        HeadStep(s, c);
      } else {
        ClearStep(s, c);
      }
      var t := Do(During(s, c, k), Sync(c));
      Once(During(s, c, k), c, t);
      Once(t, c, During(s, c, k + 1));
      RunConcat(During(s, c, k), [Sync(c)], [Sync(c)]);
      steps := [Sync(c)] + [Sync(c)];
    }
  }

  /**
   * The caller's own steps, with nobody else's between them, take it through every prefix of the
   * writes of commit, and leave it with the whole of them on the disk and an empty log.
   */
  lemma {:induction false} CommitterWrites<T>(s: State<T>, c: nat, k: nat) returns (steps: seq<Step<T>>)
    requires AboutToCommit(s, c) && k <= |Writes(s)|
    ensures Run(s, steps) && OnlyCaller(steps, c) && Exec(s, steps) == During(s, c, k) && GuardedRun(s, steps)
  {
    hide CommitWrites, Apply, HeadOf, GoodEntries, During, Do, Enabled;
    if k == 0 {
      NothingWritten(s, c);
      steps := [];
    } else {
      var before := CommitterWrites(s, c, k - 1);
      var next := NextWrite(s, c, k - 1);
      RunConcat(s, before, next);
      steps := before + next;
    }
  }

  lemma NothingWritten<T>(s: State<T>, c: nat)
    requires AboutToCommit(s, c)
    ensures During(s, c, 0) == s
  {
    ApplyNone(s.io.disk, Writes(s));
    assert s.callers[c := LogBlock(0)] == s.callers;
  }

  // ----- a call of sync from start to end -----

  ghost function Turns<T>(c: nat, n: nat): seq<Step<T>> {
    seq(n, _ => Sync(c))
  }

  /** The steps of the c-th caller alone lead from `s` to `t`. */
  ghost predicate Own<T>(s: State<T>, c: nat, t: State<T>) {
    exists n: nat :: Run(s, Turns(c, n)) && Exec(s, Turns(c, n)) == t
  }

  lemma OwnSteps<T>(s: State<T>, c: nat, steps: seq<Step<T>>)
    requires Run(s, steps) && OnlyCaller(steps, c)
    ensures Own(s, c, Exec(s, steps))
  {
    assert steps == Turns(c, |steps|);
  }

  lemma OwnThen<T>(s: State<T>, c: nat, t: State<T>, u: State<T>)
    requires Own(s, c, t) && Own(t, c, u)
    ensures Own(s, c, u)
  {
    var m: nat :| Run(s, Turns(c, m)) && Exec(s, Turns(c, m)) == t;
    var n: nat :| Run(t, Turns(c, n)) && Exec(t, Turns(c, n)) == u;
    RunConcat(s, Turns(c, m), Turns(c, n));
    OwnSteps(s, c, Turns(c, m) + Turns(c, n));
  }

  lemma OwnStep<T>(s: State<T>, c: nat)
    requires Enabled(s, Sync(c))
    ensures Own(s, c, Do(s, Sync(c)))
  {
    Once(s, c, Do(s, Sync(c)));
    OwnSteps(s, c, [Sync(c)]);
  }

  /** The state in which the caller has left sync. */
  ghost function Finished<T>(s: State<T>, c: nat): State<T>
    requires AboutToCommit(s, c)
  {
    s.(io := s.io.(disk := Apply(s.io.disk, Writes(s)), lh := []),
       callers := Without(s.callers, c), committing := false, sleepers := 0,
       point := |s.quiet| - 1, synced := |s.quiet| - 1)
  }

  lemma LeavesFinished<T>(s: State<T>, c: nat)
    requires AboutToCommit(s, c)
    ensures var t := During(s, c, |Writes(s)|); Enabled(t, Sync(c)) && Do(t, Sync(c)) == Finished(s, c)
  {
    hide CommitWrites, Apply, HeadOf, GoodEntries;
    Entry(s, c, |Writes(s)|);
    assert Writes(s)[..|Writes(s)|] == Writes(s);
    assert Without(s.callers[c := Leave], c) == Without(s.callers, c);
  }

  lemma WholeCommit<T>(s: State<T>, c: nat)
    requires AboutToCommit(s, c)
    ensures Own(s, c, Finished(s, c))
  {
    hide During, Do, Enabled, Run, Exec;
    var steps := CommitterWrites(s, c, |Writes(s)|);
    OwnSteps(s, c, steps);
    LeavesFinished(s, c);
    OwnStep(During(s, c, |Writes(s)|), c);
    OwnThen(s, c, During(s, c, |Writes(s)|), Finished(s, c));
  }

  /** Commit reads only home blocks from memory. */
  lemma SameWrites<T>(d: Disk<T>, a: Area, lh: seq<nat>, x: seq<T>, y: seq<T>)
    requires SameHome(x, y, a) && GoodEntries(lh, a, |x|)
    ensures CommitWrites(d, a, lh, x) == CommitWrites(d, a, lh, y)
  {
    hide HeadOf;
    assert LogWrites(a, lh, x) == LogWrites(a, lh, y);
    assert HomeWrites(lh, x) == HomeWrites(lh, y);
  }
}
