/** log.c: what the steps of a run, replayed one write at a time, say that recovery must leave. */
module LogHistory {
  import opened Collections
  import opened LogSpec
  import opened LogRuns

  /**
   * The writes of log_write that have not been lost, in order; `cuts` are the numbers of writes that had been made at
   * the moments with no operation in progress; `point` is the one that the last header write covers and `synced` the
   * one of the last commit that finished.
   */
  datatype Past<T> = Past(writes: seq<(nat, T)>, cuts: seq<nat>, point: nat, synced: nat)

  function Start<T>(): Past<T> {
    Past([], [0], 0, 0)
  }

  /** One step of the run, noted. Of the state only where operations, callers and recovery are is looked at. */
  function Note<T>(h: Past<T>, s: State<T>, st: Step<T>): Past<T>
    requires Enabled(s, st)
  {
    match st
    case LogWrite(_, b, v) => h.(writes := h.writes + [(b, v)])
    case EndOp(_) => if |s.ops| == 1 then h.(cuts := h.cuts + [|h.writes|]) else h
    case Sync(c) =>
      if s.callers[c].PutHead? && h.cuts != [] then h.(point := |h.cuts| - 1)
      else if s.callers[c].ClearHead? then h.(synced := h.point)
      else h
    case Recover => if s.boot.i < |s.io.lh| then h else Undone(h)
    case _ => h
  }

  /** A finished recovery: what came after the last header write is lost. */
  function Undone<T>(h: Past<T>): Past<T> {
    if h.point < |h.cuts| && h.cuts[h.point] <= |h.writes|
    then h.(writes := h.writes[..h.cuts[h.point]], cuts := h.cuts[..h.point + 1])
    else h
  }

  ghost function Replay<T>(h: Past<T>, s: State<T>, steps: seq<Step<T>>): Past<T>
    requires Run(s, steps)
    decreases |steps|
  {
    if steps == [] then h else Replay(Note(h, s, steps[0]), Do(s, steps[0]), steps[1..])
  }

  /** The value of the last write to block `b`, or else what the block held to begin with. */
  function Last<T>(writes: seq<(nat, T)>, b: nat, before: T): T {
    if writes == [] then before
    else if writes[|writes| - 1].0 == b then writes[|writes| - 1].1
    else Last(writes[..|writes| - 1], b, before)
  }

  /** Every home block of `x` holds the last of the writes to it. */
  ghost predicate Holds<T>(x: seq<T>, a: Area, base: seq<T>, writes: seq<(nat, T)>) {
    |x| == |base| && forall b :: 0 <= b < |x| && !a.Holds(b) ==> x[b] == Last(writes, b, base[b])
  }

  /** The state and the history agree. */
  ghost predicate Told<T>(a: Area, base: seq<T>, s: State<T>, h: Past<T>) {
    && s.io.area == a && h.point == s.point && h.synced == s.synced && |h.cuts| == |s.quiet|
    && (forall j, k :: 0 <= j <= k < |h.cuts| ==> h.cuts[j] <= h.cuts[k])
    && (forall k :: 0 <= k < |h.cuts| ==>
          h.cuts[k] <= |h.writes| && Holds(s.quiet[k], a, base, h.writes[..h.cuts[k]]))
    && (s.boot.Up? ==> Holds(s.io.mem, a, base, h.writes))
  }

  lemma StartTold<T>(s: State<T>)
    requires Init(s)
    ensures Told(s.io.area, s.io.disk.blocks, s, Start())
  {
  }

  lemma OneMore<T>(x: seq<T>, a: Area, base: seq<T>, writes: seq<(nat, T)>, b: nat, v: T)
    requires Holds(x, a, base, writes) && b < |x|
    ensures Holds(x[b := v], a, base, writes + [(b, v)])
  {
    assert (writes + [(b, v)])[..|writes|] == writes;
  }

  lemma WriteTold<T>(a: Area, base: seq<T>, s: State<T>, h: Past<T>, op: nat, b: nat, v: T)
    requires Told(a, base, s, h) && Enabled(s, LogWrite(op, b, v))
    ensures Told(a, base, Do(s, LogWrite(op, b, v)), Note(h, s, LogWrite(op, b, v)))
  {
    hide Holds;
    OneMore(s.io.mem, a, base, h.writes, b, v);
    var more := h.writes + [(b, v)];
    assert forall k :: 0 <= k < |h.cuts| ==> more[..h.cuts[k]] == h.writes[..h.cuts[k]];
  }

  lemma EndTold<T>(a: Area, base: seq<T>, s: State<T>, h: Past<T>, op: nat)
    requires Told(a, base, s, h) && Enabled(s, EndOp(op))
    ensures Told(a, base, Do(s, EndOp(op)), Note(h, s, EndOp(op)))
  {
    hide Holds, WakeSync, Without;
    assert h.writes[..|h.writes|] == h.writes;
  }

  lemma SameHolds<T>(x: seq<T>, y: seq<T>, a: Area, base: seq<T>, writes: seq<(nat, T)>)
    requires SameHome(y, x, a) && Holds(x, a, base, writes)
    ensures Holds(y, a, base, writes)
  {
  }

  lemma RecoverTold<T>(a: Area, base: seq<T>, s: State<T>, h: Past<T>)
    requires Told(a, base, s, h) && Inv(s) && Enabled(s, Recover)
    ensures Told(a, base, DoRecover(s), Note(h, s, Recover))
  {
    hide Holds, RecoversTo, Pinned, SameHome, Copied, Put, HeadOf;
    if s.boot.i == |s.io.lh| {
      AllCopied(s.io, s.quiet[s.point]);
      SameHolds(s.quiet[s.point], s.io.disk.blocks, a, base, h.writes[..h.cuts[h.point]]);
      var u := Undone(h);
      assert forall k :: 0 <= k < |u.cuts| ==> u.writes[..u.cuts[k]] == h.writes[..h.cuts[k]];
    }
  }

  lemma SyncTold<T>(a: Area, base: seq<T>, s: State<T>, h: Past<T>, c: nat)
    requires Told(a, base, s, h) && Inv(s) && Enabled(s, Sync(c))
    ensures Told(a, base, Do(s, Sync(c)), Note(h, s, Sync(c)))
  {
    hide Holds, UpInv, RecoveringInv, RecoversTo, LogOne, InstallOne, WriteHead, Without, SyncEnabled;
    SyncKeepsMemory(s, c);
  }

  /** The steps of sync change neither what bread returns nor the history, except at its two header writes. */
  lemma SyncKeepsMemory<T>(s: State<T>, c: nat)
    requires Enabled(s, Sync(c))
    ensures var t := Do(s, Sync(c));
      && t.io.mem == s.io.mem && t.io.area == s.io.area && t.quiet == s.quiet && t.boot == s.boot
      && t.point == (if s.callers[c].PutHead? && s.quiet != [] then |s.quiet| - 1
                     else if s.callers[c].PutHead? then 0 else s.point)
      && t.synced == if s.callers[c].ClearHead? then s.point else s.synced
  {
    hide Put, HeadOf, Without;
  }

  lemma NoteKeeps<T>(a: Area, base: seq<T>, s: State<T>, h: Past<T>, st: Step<T>)
    requires Told(a, base, s, h) && Inv(s) && Enabled(s, st)
    ensures Told(a, base, Do(s, st), Note(h, s, st))
  {
    hide Holds, RecoversTo, Pinned, SameHome, Copied, Put, HeadOf, Reserved, Logged, Installed, AtPc;
    match st {
      case LogWrite(op, b, v) => WriteTold(a, base, s, h, op, b, v);
      case EndOp(op) => EndTold(a, base, s, h, op);
      case Sync(c) => SyncTold(a, base, s, h, c);
      case Recover => RecoverTold(a, base, s, h);
      case _ =>
    }
  }

  lemma {:induction false} ReplayKeeps<T>(a: Area, base: seq<T>, s: State<T>, h: Past<T>, steps: seq<Step<T>>)
    requires Told(a, base, s, h) && Inv(s) && Run(s, steps) && GuardedRun(s, steps)
    ensures Told(a, base, Exec(s, steps), Replay(h, s, steps)) && Inv(Exec(s, steps))
    decreases |steps|
  {
    hide Told, Inv, Note, Do;
    if steps != [] {
      NoteKeeps(a, base, s, h, steps[0]);
      StepKeeps(s, steps[0]);
      ReplayKeeps(a, base, Do(s, steps[0]), Note(h, s, steps[0]), steps[1..]);
    }
  }

  /** What bread returns is, for every home block, the last write of the run that was not lost. */
  lemma MemoryIsLatest<T>(s: State<T>, steps: seq<Step<T>>)
    requires Init(s) && Run(s, steps) && GuardedRun(s, steps) && Exec(s, steps).boot.Up?
    ensures Holds(Exec(s, steps).io.mem, s.io.area, s.io.disk.blocks, Replay(Start(), s, steps).writes)
  {
    InitInv(s);
    StartTold(s);
    ReplayKeeps(s.io.area, s.io.disk.blocks, s, Start(), steps);
  }

  /**
   * Over every run with one committer at a time, whatever the instant of the crash, recovery leaves in every home block
   * the last of the writes made up to a moment at which no operation was in progress, and nothing that a finished
   * commit covered is lost.
   */
  lemma NoOperationHalfPresent<T>(s: State<T>, steps: seq<Step<T>>)
    requires Init(s) && Run(s, steps) && GuardedRun(s, steps)
    ensures CrashSafe(Exec(s, steps))
    ensures var t, h := Exec(s, steps), Replay(Start(), s, steps);
      && Recoverable(t.io.disk, s.io.area)
      && exists k ::
        && h.synced <= k < |h.cuts| && h.cuts[k] <= |h.writes|
        && Holds(Recovered(t.io.disk, s.io.area).blocks, s.io.area, s.io.disk.blocks, h.writes[..h.cuts[k]])
  {
    hide Holds, SameHome, Recovered;
    InitInv(s);
    StartTold(s);
    var t, h := Exec(s, steps), Replay(Start(), s, steps);
    ReplayKeeps(s.io.area, s.io.disk.blocks, s, Start(), steps);
    RecoversToRecovered(t.io.disk, t.io.area, t.quiet[t.point]);
    SameHolds(t.quiet[t.point], Recovered(t.io.disk, t.io.area).blocks, s.io.area, s.io.disk.blocks,
              h.writes[..h.cuts[t.point]]);
  }
}
