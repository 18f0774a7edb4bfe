/** log.c: a caller of sync that leaves late clears the flag that the last end_op has just set. */
module LogStuck {
  import opened Collections
  import opened LogSpec
  import opened LogRuns
  import opened LogCommit

  /** A run with one committer at a time leads from `s` to `t`. */
  ghost predicate Leads<T>(s: State<T>, steps: seq<Step<T>>, t: State<T>) {
    Run(s, steps) && GuardedRun(s, steps) && Exec(s, steps) == t
  }

  lemma Next<T>(s: State<T>, steps: seq<Step<T>>, t: State<T>, st: Step<T>, u: State<T>)
    requires Leads(s, steps, t) && Enabled(t, st) && OneCommitter(t, st) && Do(t, st) == u
    ensures Leads(s, steps + [st], u)
  {
    RunAppend(s, steps, st);
  }

  lemma Join<T>(s: State<T>, xs: seq<Step<T>>, t: State<T>, ys: seq<Step<T>>, u: State<T>)
    requires Leads(s, xs, t) && Leads(t, ys, u)
    ensures Leads(s, xs + ys, u)
  {
    RunConcat(s, xs, ys);
  }

  /** One operation logs one block and ends. */
  lemma OneOperation<T>(s: State<T>, v: T) returns (steps: seq<Step<T>>, t: State<T>)
    requires Init(s) && Clear(s) && s.io.area.size > 1
    ensures Leads(s, steps, t) && t.callers == [] && !t.committing && t.ops == [] && t.boot.Up? && t.quiet != []
    ensures t.io.area == s.io.area && t.io.disk == s.io.disk && |t.io.mem| == |s.io.mem|
    ensures t.io.lh != [] && CommitReady(t.io.disk, t.io.area, t.io.lh, t.io.mem)
  {
    var b := s.io.area.start + s.io.area.size;
    steps, t := [], s;
    Next(s, steps, t, BeginOp, Do(t, BeginOp));
    steps, t := steps + [BeginOp], Do(t, BeginOp);
    Next(s, steps, t, LogWrite(0, b, v), Do(t, LogWrite(0, b, v)));
    steps, t := steps + [LogWrite(0, b, v)], Do(t, LogWrite(0, b, v));
    Next(s, steps, t, EndOp(0), Do(t, EndOp(0)));
    steps, t := steps + [EndOp(0)], Do(t, EndOp(0));
  }

  /** Two callers enter sync; the second waits while the first is about to commit. */
  lemma TwoEnter<T>(s: State<T>, xs: seq<Step<T>>, t: State<T>) returns (steps: seq<Step<T>>, u: State<T>)
    requires Leads(s, xs, t) && t.callers == [] && !t.committing && t.ops == [] && t.boot.Up? && t.io.lh != []
      && |t.io.lh| <= LOGSIZE
    ensures Leads(s, steps, u) && u == t.(callers := [LogBlock(0), Wait(false)], committing := true)
  {
    hide Leads;
    var w := t.(committing := true);
    Next(s, xs, t, CallSync, t.(callers := [Enter]));
    steps := xs + [CallSync];
    Next(s, steps, t.(callers := [Enter]), CallSync, t.(callers := [Enter, Enter]));
    steps := steps + [CallSync];
    Next(s, steps, t.(callers := [Enter, Enter]), Sync(0), t.(callers := [Seen, Enter]));
    steps := steps + [Sync(0)];
    Next(s, steps, t.(callers := [Seen, Enter]), Sync(1), t.(callers := [Seen, Seen]));
    steps := steps + [Sync(1)];
    Next(s, steps, t.(callers := [Seen, Seen]), Sync(0), w.(callers := [Wait(false), Seen]));
    steps := steps + [Sync(0)];
    Next(s, steps, w.(callers := [Wait(false), Seen]), Sync(1), w.(callers := [Wait(false), Wait(false)]));
    steps := steps + [Sync(1)];
    u := w.(callers := [LogBlock(0), Wait(false)]);
    Next(s, steps, w.(callers := [Wait(false), Wait(false)]), Sync(0), u);
    steps := steps + [Sync(0)];
  }

  /** The first commits; the second finds the log empty; the first leaves. */
  lemma OneLeaves<T>(s: State<T>, xs: seq<Step<T>>, t: State<T>) returns (steps: seq<Step<T>>, u: State<T>)
    requires Leads(s, xs, t) && AboutToCommit(t, 0) && t.callers == [LogBlock(0), Wait(false)] && t.ops == []
    requires |t.io.mem| == |t.io.disk.blocks| && t.io.area.start + t.io.area.size + LOGSIZE <= |t.io.mem|
    ensures Leads(s, steps, u) && u.callers == [Leave] && Clear(u) && u.io.area == t.io.area
  {
    hide Leads, During, CommitWrites, Apply;
    var ys := CommitterWrites(t, 0, |Writes(t)|);
    var w := During(t, 0, |Writes(t)|);
    assert Leads(t, ys, w) by { Gathered(t, ys, w); }
    Join(s, xs, t, ys, w);
    AfterWrites(t);
    steps, u := xs + ys, w;
    Next(s, steps, u, Sync(1), Do(u, Sync(1)));
    steps, u := steps + [Sync(1)], Do(u, Sync(1));
    assert u.callers == [Leave, Leave];
    Next(s, steps, u, Sync(0), Do(u, Sync(0)));
    steps, u := steps + [Sync(0)], Do(u, Sync(0));
  }

  lemma Gathered<T>(s: State<T>, steps: seq<Step<T>>, t: State<T>)
    requires Run(s, steps) && GuardedRun(s, steps) && Exec(s, steps) == t
    ensures Leads(s, steps, t)
  {
  }

  lemma AfterWrites<T>(t: State<T>)
    requires AboutToCommit(t, 0) && t.callers == [LogBlock(0), Wait(false)]
    ensures var w := During(t, 0, |Writes(t)|);
      && w.callers == [Leave, Wait(false)] && w.io.lh == [] && w.io.area == t.io.area && w.io.mem == t.io.mem
      && w.ops == t.ops && w.boot == t.boot && |w.io.disk.blocks| == |t.io.disk.blocks|
  {
    hide CommitWrites, Apply, GoodEntries;
    Entry(t, 0, |Writes(t)|);
  }

  /** The three operations end one after the other; the last one sets the flag and enters sync. */
  lemma AllEnd<T>(s: State<T>, xs: seq<Step<T>>, t: State<T>) returns (steps: seq<Step<T>>, u: State<T>)
    requires Leads(s, xs, t) && t.boot.Up? && |t.ops| == 3 && |t.io.lh| == LOGSIZE && t.callers == [Leave]
    ensures Leads(s, steps, u) && u.boot.Up? && u.ops == [] && u.io == t.io && u.callers == [Leave, Enter]
      && u.committing
  {
    hide Leads;
    steps, u := xs, t;
    Next(s, steps, u, EndOp(0), Do(u, EndOp(0)));
    steps, u := steps + [EndOp(0)], Do(u, EndOp(0));
    Next(s, steps, u, EndOp(0), Do(u, EndOp(0)));
    steps, u := steps + [EndOp(0)], Do(u, EndOp(0));
    Next(s, steps, u, EndOp(0), Do(u, EndOp(0)));
    steps, u := steps + [EndOp(0)], Do(u, EndOp(0));
  }

  /**
   * Even with one committer at a time, begin_op's guard can be closed with nothing outstanding and nobody committing:
   * the second of two callers leaves only after three more operations have filled the log, and clears the flag that
   * the last of them has set. That operation is on its way to commit, as it must be.
   */
  lemma LateLeaverClosesGuard<T(!new)>(s: State<T>, v: T)
    requires Init(s) && s.io.area.size > LOGSIZE
    requires s.io.area.start + s.io.area.size + LOGSIZE <= |s.io.mem|
    ensures exists steps ::
      && Run(s, steps) && GuardedRun(s, steps)
      && var t := Exec(s, steps); t.boot.Up? && t.ops == [] && !t.committing && t.Full() && t.callers == [Enter]
  {
    hide Leads;
    var steps, t := OneOperation(s, v);
    steps, t := TwoEnter(s, steps, t);
    steps, t := OneLeaves(s, steps, t);
    var more := Fill(t, LOGSIZE, v);
    var u := Exec(t, more);
    Gathered(t, more, u);
    Join(s, steps, t, more, u);
    steps, t := AllEnd(s, steps + more, u);
    Next(s, steps, t, Sync(0), Do(t, Sync(0)));
    assert Leads(s, steps + [Sync(0)], Do(t, Sync(0)));
    Spread(s, steps + [Sync(0)], Do(t, Sync(0)));
  }

  lemma Spread<T>(s: State<T>, steps: seq<Step<T>>, t: State<T>)
    requires Leads(s, steps, t)
    ensures Run(s, steps) && GuardedRun(s, steps) && Exec(s, steps) == t
  {
  }
}
