/** proc.c: the process table and the queue of the MLFQ class, and when they agree. */
module MlfqSched {
  import Collections
  import opened MlfqQueue
  import MlfqLife
  import opened Options
  import S = Sched
  import opened StrideSpec

  type Proc = S.Proc

  /** Node `x` stands for process `i`. */
  predicate NodeOf(info: seq<Info>, x: nat, i: nat) {
    x < NPROC && x < |info| && info[x].used && info[x].self == i
  }

  ghost predicate HasNode(info: seq<Info>, i: nat) {
    exists x: nat :: NodeOf(info, x, i)
  }

  /** Every process that is alive in the MLFQ class has one node, and no other process that is alive has any. */
  ghost predicate Matched(t: seq<Proc>, info: seq<Info>) {
    && |t| == NPROC && |info| == NODES
    && (forall x: nat :: x < NPROC && info[x].used ==> info[x].self < NPROC)
    && (forall x: nat, i: nat :: i < NPROC && NodeOf(info, x, i) && S.Alive(t[i]) ==> t[i].mode == S.Mlfq)
    && (forall i: nat :: i < NPROC && S.Alive(t[i]) && t[i].mode == S.Mlfq ==> HasNode(info, i))
    && (forall x: nat, y: nat, i: nat :: NodeOf(info, x, i) && NodeOf(info, y, i) ==> x == y)
  }

  function States(t: seq<Proc>): (st: seq<S.State>)
    ensures |st| == |t| && forall i :: 0 <= i < |t| ==> st[i] == t[i].state
  {
    seq(|t|, i requires 0 <= i < |t| => t[i].state)
  }

  /** The process of the node that choosebymlfq returns. */
  function PickOf(info: seq<Info>, m: nat): Option<nat>
    requires |info| == NODES && m <= NIL
  {
    if m == NIL then None else Some(info[m].self)
  }

  // ----- what happens to a process and to its node -----

  datatype Sys = Sys(t: seq<Proc>, info: seq<Info>)

  datatype Event =
    | Sleep(i: nat)
    | Wake(i: nat)
    | Yield(i: nat)
    | Dispatch(i: nat)
    | Exit(i: nat)
    | Reap(i: nat)                                // wait: the slot is free, the node stays
    | Fork(i: nat)                                // the slot is taken by a process of the default class
    | Join(i: nat, m: nat)                        // run_MLFQ
    | Leave(i: nat)                               // cpu_share
    | Sweep(x: nat)                               // choosebymlfq deletes a node on its way
    | Account(x: nat, level: nat, exec: nat)      // the accounting of a tick

  predicate In(s: Sys, i: nat, st: S.State) {
    i < |s.t| && s.t[i].state == st
  }

  predicate Allowed(s: Sys, e: Event) {
    && |s.t| == NPROC && |s.info| == NODES
    && match e
       case Sleep(i) => In(s, i, S.Running)
       case Wake(i) => In(s, i, S.Sleeping)
       case Yield(i) => In(s, i, S.Running)
       case Dispatch(i) => In(s, i, S.Runnable)
       case Exit(i) => In(s, i, S.Running)
       case Reap(i) => In(s, i, S.Zombie)
       case Fork(i) => In(s, i, S.Unused)
       case Join(i, m) => In(s, i, S.Running) && m < NPROC && !s.info[m].used
       case Leave(i) => In(s, i, S.Running)
       case Sweep(x) => x < NPROC && s.info[x].used && s.info[x].self < NPROC
                        && !s.t[s.info[x].self].state.Runnable? && !s.t[s.info[x].self].state.Sleeping?
       case Account(x, _, _) => x < NPROC && s.info[x].used
  }

  function Unnoded(info: seq<Info>, i: nat): (r: seq<Info>)
    ensures |r| == |info| && forall x: nat :: x < |info| ==>
      r[x] == if NodeOf(info, x, i) then Info(NPROC, false, 0, 0) else info[x]
  {
    seq(|info|, x requires 0 <= x < |info| => if NodeOf(info, x, i) then Info(NPROC, false, 0, 0) else info[x])
  }

  function To(s: Sys, i: nat, st: S.State): Sys
    requires i < |s.t|
  {
    s.(t := s.t[i := s.t[i].(state := st)])
  }

  function Do(s: Sys, e: Event): Sys
    requires Allowed(s, e)
  {
    match e
    case Sleep(i) => To(s, i, S.Sleeping)
    case Wake(i) => To(s, i, S.Runnable)
    case Yield(i) => To(s, i, S.Runnable)
    case Dispatch(i) => To(s, i, S.Running)
    case Exit(i) => To(s, i, S.Zombie)
    case Reap(i) => To(s, i, S.Unused)
    case Fork(i) => s.(t := s.t[i := s.t[i].(state := S.Runnable, mode := S.Default)])
    case Join(i, m) => Sys(s.t[i := s.t[i].(mode := S.Mlfq)], s.info[m := Info(i, true, 0, 0)])
    case Leave(i) => Sys(s.t[i := s.t[i].(mode := S.Fixed)], Unnoded(s.info, i))
    case Sweep(x) => s.(info := s.info[x := Info(NPROC, false, 0, 0)])
    case Account(x, level, exec) => s.(info := s.info[x := s.info[x].(level := level, exec := exec)])
  }

  /**
   * The events that can break the match: a slot with a node left is reused, a process joins
   * twice, a running process is swept.
   */
  ghost predicate Keeps(s: Sys, e: Event)
    requires Allowed(s, e)
  {
    match e
    case Fork(i) => !HasNode(s.info, i)
    case Join(i, _) => s.t[i].mode != S.Mlfq
    case Sweep(x) => !s.t[s.info[x].self].state.Running?
    case _ => true
  }

  lemma StateKeeps(s: Sys, i: nat, st: S.State)
    requires Matched(s.t, s.info) && i < NPROC && (S.Alive(s.t[i].(state := st)) ==> S.Alive(s.t[i]))
    ensures var r := To(s, i, st); Matched(r.t, r.info)
  {
  }

  lemma ForkKeeps(s: Sys, i: nat)
    requires Matched(s.t, s.info) && Allowed(s, Fork(i))
    ensures var r := Do(s, Fork(i)); Matched(r.t, r.info) <==> !HasNode(s.info, i)
  {
    var r := Do(s, Fork(i));
    if x: nat :| NodeOf(s.info, x, i) {
      assert NodeOf(r.info, x, i) && S.Alive(r.t[i]);
    }
  }

  /** What one node that changes means for the processes. */
  lemma NodeAfter(info: seq<Info>, m: nat, v: Info, r: seq<Info>)
    requires |info| == NODES && m < NPROC && r == info[m := v]
    ensures forall x: nat, i: nat :: x != m ==> (NodeOf(r, x, i) <==> NodeOf(info, x, i))
    ensures forall i: nat :: NodeOf(r, m, i) <==> v.used && v.self == i
    ensures forall i: nat :: HasNode(info, i) && !NodeOf(info, m, i) ==> HasNode(r, i)
    ensures v.used ==> HasNode(r, v.self)
  {
    forall i: nat | HasNode(info, i) && !NodeOf(info, m, i)
      ensures HasNode(r, i)
    {
      var x: nat :| NodeOf(info, x, i);
      assert NodeOf(r, x, i);
    }
    assert v.used ==> NodeOf(r, m, v.self);
  }

  lemma JoinKeeps(s: Sys, i: nat, m: nat)
    requires Matched(s.t, s.info) && Allowed(s, Join(i, m))
    ensures var r := Do(s, Join(i, m)); Matched(r.t, r.info) <==> s.t[i].mode != S.Mlfq
  {
    var r := Do(s, Join(i, m));
    NodeAfter(s.info, m, Info(i, true, 0, 0), r.info);
    if s.t[i].mode == S.Mlfq {
      var x: nat :| NodeOf(s.info, x, i);
      assert NodeOf(r.info, x, i) && NodeOf(r.info, m, i) && x != m;
    }
  }

  lemma LeaveKeeps(s: Sys, i: nat)
    requires Matched(s.t, s.info) && Allowed(s, Leave(i))
    ensures var r := Do(s, Leave(i)); Matched(r.t, r.info)
  {
    var r := Do(s, Leave(i));
    assert forall x: nat, j: nat :: NodeOf(r.info, x, j) ==> NodeOf(s.info, x, j) && j != i;
    forall j: nat | j < NPROC && S.Alive(r.t[j]) && r.t[j].mode == S.Mlfq
      ensures HasNode(r.info, j)
    {
      var x: nat :| NodeOf(s.info, x, j);
      assert NodeOf(r.info, x, j);
    }
  }

  lemma SweepKeeps(s: Sys, x: nat)
    requires Matched(s.t, s.info) && Allowed(s, Sweep(x))
    ensures var r := Do(s, Sweep(x)); Matched(r.t, r.info) <==> !s.t[s.info[x].self].state.Running?
  {
    var r := Do(s, Sweep(x));
    var i := s.info[x].self;
    NodeAfter(s.info, x, Info(NPROC, false, 0, 0), r.info);
    assert NodeOf(s.info, x, i);
  }

  lemma AccountKeeps(s: Sys, x: nat, level: nat, exec: nat)
    requires Matched(s.t, s.info) && Allowed(s, Account(x, level, exec))
    ensures var r := Do(s, Account(x, level, exec)); Matched(r.t, r.info)
  {
    var r := Do(s, Account(x, level, exec));
    NodeAfter(s.info, x, s.info[x].(level := level, exec := exec), r.info);
    assert forall y: nat, i: nat :: NodeOf(r.info, y, i) <==> NodeOf(s.info, y, i);
  }

  /** What an event does to the process it is about, and that it leaves every other process alone. */
  lemma EventEffect(s: Sys, e: Event)
    requires Allowed(s, e)
    ensures |Do(s, e).t| == NPROC
    ensures e.Sleep? ==> In(Do(s, e), e.i, S.Sleeping)
    ensures e.Wake? || e.Yield? || e.Fork? ==> In(Do(s, e), e.i, S.Runnable)
    ensures e.Dispatch? ==> In(Do(s, e), e.i, S.Running)
    ensures e.Exit? ==> In(Do(s, e), e.i, S.Zombie)
    ensures e.Reap? ==> In(Do(s, e), e.i, S.Unused)
    ensures e.Join? || e.Leave? ==> In(Do(s, e), e.i, S.Running)
    ensures e.Sweep? || e.Account? ==> Do(s, e).t == s.t
    ensures !e.Sweep? && !e.Account? ==>
      && (forall j :: 0 <= j < NPROC && j != e.i ==> Do(s, e).t[j] == s.t[j])
      && Do(s, e).t[e.i].mode == (if e.Fork? then S.Default else if e.Join? then S.Mlfq
                                  else if e.Leave? then S.Fixed else s.t[e.i].mode)
    ensures !e.Join? && !e.Leave? && !e.Sweep? && !e.Account? ==> Do(s, e).info == s.info
  {
  }

  /** Each event keeps the table and the queue matched if and only if it is none of the three. */
  lemma EventKeeps(s: Sys, e: Event)
    requires Matched(s.t, s.info) && Allowed(s, e)
    ensures var r := Do(s, e); Matched(r.t, r.info) <==> Keeps(s, e)
  {
    hide Matched, HasNode, Unnoded;
    match e {
      case Sleep(i) => StateKeeps(s, i, S.Sleeping);
      case Wake(i) => StateKeeps(s, i, S.Runnable);
      case Yield(i) => StateKeeps(s, i, S.Runnable);
      case Dispatch(i) => StateKeeps(s, i, S.Running);
      case Exit(i) => StateKeeps(s, i, S.Zombie);
      case Reap(i) => StateKeeps(s, i, S.Unused);
      case Fork(i) => ForkKeeps(s, i);
      case Join(i, m) => JoinKeeps(s, i, m);
      case Leave(i) => LeaveKeeps(s, i);
      case Sweep(x) => SweepKeeps(s, x);
      case Account(x, level, exec) => AccountKeeps(s, x, level, exec);
    }
  }

  ghost predicate Run(s: Sys, es: seq<Event>)
    decreases |es|
  {
    es == [] || (Allowed(s, es[0]) && Keeps(s, es[0]) && Run(Do(s, es[0]), es[1..]))
  }

  ghost function Exec(s: Sys, es: seq<Event>): Sys
    requires Run(s, es)
    decreases |es|
  {
    if es == [] then s else Exec(Do(s, es[0]), es[1..])
  }

  lemma {:induction false} AlwaysMatched(s: Sys, es: seq<Event>)
    requires Matched(s.t, s.info) && Run(s, es)
    ensures var r := Exec(s, es); Matched(r.t, r.info)
    decreases |es|
  {
    hide Matched, Allowed, Keeps;
    if es != [] {
      EventKeeps(s, es[0]);
      AlwaysMatched(Do(s, es[0]), es[1..]);
    }
  }

  // ----- with the two matched, the queue's answer is what the stride scheduler needs -----

  lemma MatchedAt(t: seq<Proc>, info: seq<Info>, x: nat)
    requires Matched(t, info) && x < NPROC && info[x].used
    ensures info[x].self < NPROC && (S.Alive(t[info[x].self]) ==> t[info[x].self].mode == S.Mlfq)
  {
    assert NodeOf(info, x, info[x].self);
  }

  lemma RunningPick(t: seq<Proc>, info: seq<Info>, m: nat)
    requires Matched(t, info) && m < NPROC && info[m].used && Runs(info, States(t), m)
    ensures S.MlfqPick(t, PickOf(info, m))
  {
    MatchedAt(t, info, m);
  }

  lemma FirstPick(t: seq<Proc>, info: seq<Info>, order: seq<nat>, j: nat, m: nat)
    requires Matched(t, info) && Sorted(info, order) && Members(info, order) && FirstRuns(info, States(t), order, j, m)
    ensures m <= NIL && S.MlfqPick(t, PickOf(info, m))
  {
    if j < |order| {
      assert order[j] in order;
      RunningPick(t, info, m);
    }
  }

  ghost predicate NoneRunning(t: seq<Proc>) {
    forall i :: 0 <= i < |t| ==> !t[i].state.Running?
  }

  /** The nodes that the walk deletes are of processes that are not alive, if none is running. */
  lemma SweptMatched(t: seq<Proc>, info: seq<Info>, order: seq<nat>, j: nat, info': seq<Info>, order': seq<nat>)
    requires Matched(t, info) && Swept(info, States(t), order, j, info', order') && NoneRunning(t)
    ensures Matched(t, info')
  {
    hide Rest;
    assert forall x: nat, i: nat :: NodeOf(info', x, i) ==> NodeOf(info, x, i);
    forall i: nat | i < NPROC && S.Alive(t[i]) && t[i].mode == S.Mlfq
      ensures HasNode(info', i)
    {
      var x: nat :| NodeOf(info, x, i);
      assert !Dead(info, States(t), x);
      assert NodeOf(info', x, i);
    }
  }

  /** Some nodes of processes that neither can run nor sleep are gone; the others are as they were. */
  ghost predicate OnlyDead(info: seq<Info>, t: seq<Proc>, info': seq<Info>) {
    |info| == |info'| == NODES && forall x: nat :: x < NODES ==>
      info'[x] == info[x] || (info'[x] == Info(NPROC, false, 0, 0) && Dead(info, States(t), x))
  }

  lemma NothingSwept(info: seq<Info>, t: seq<Proc>)
    requires |info| == NODES
    ensures OnlyDead(info, t, info)
  {
  }

  /** choosebymlfq for the processes of the table `t`. */
  method Choose(q: Queue, t: seq<Proc>) returns (m: nat)
    requires q.Valid() && Matched(t, q.info[..])
    modifies q, q.next, q.prev, q.info
    ensures q.Valid() && q.highpr == m && q.sliceCnt == old(q.sliceCnt) && m <= NIL
    ensures S.MlfqPick(t, PickOf(q.info[..], m))
    ensures m != NIL ==> m < NPROC && q.info[m].used && q.info[m] == old(q.info[m])
    ensures NoneRunning(t) ==> Matched(t, q.info[..])
    ensures OnlyDead(old(q.info[..]), t, q.info[..]) && (m != NIL ==> Runs(q.info[..], States(t), m))
  {
    hide Sorted, Members, Queue.Chained, Matched, FirstRuns, Swept, Runs, S.MlfqPick;
    ghost var f, o, h := q.info[..], q.order, q.highpr;
    assert |t| == NPROC by { MatchedSize(t, f); }
    m := q.Choose(States(t));
    if h != NIL && Runs(f, States(t), h) {
      RunningPick(t, f, m);
      NothingSwept(f, t);
    } else {
      ghost var j: nat :| FirstRuns(f, States(t), o, j, m) && Swept(f, States(t), o, j, q.info[..], q.order);
      FirstPick(t, f, o, j, m);
      SamePick(t, f, o, j, m, q.info[..], q.order);
      if NoneRunning(t) {
        SweptMatched(t, f, o, j, q.info[..], q.order);
      }
    }
  }

  lemma MatchedSize(t: seq<Proc>, info: seq<Info>)
    requires Matched(t, info)
    ensures |t| == NPROC && |info| == NODES
  {
  }

  lemma SamePick(t: seq<Proc>, info: seq<Info>, order: seq<nat>, j: nat, m: nat, info': seq<Info>, order': seq<nat>)
    requires FirstRuns(info, States(t), order, j, m) && Swept(info, States(t), order, j, info', order') && m <= NIL
    ensures PickOf(info', m) == PickOf(info, m) && (m != NIL ==> info'[m] == info[m] && Runs(info', States(t), m))
    ensures OnlyDead(info, t, info')
  {
    hide Rest;
  }

  /** The scheduler with both its halves. */
  class Kernel {
    const s: S.Scheduler
    const q: Queue

    ghost predicate Valid()
      reads s, s.procs, q, q.next, q.prev, q.info
    {
      s.Valid() && q.Valid() && Matched(s.procs[..], q.info[..]) && NoneRunning(s.procs[..])
    }

    constructor (s: S.Scheduler, q: Queue)
      ensures this.s == s && this.q == q
    {
      this.s, this.q := s, q;
    }

    /**
     * One turn: the queue answers for its class, the stride scheduler chooses, and a process of the class is charged.
     */
    method Pass() returns (x: Option<nat>, ghost mid: seq<real>)
      requires Valid()
      modifies s, s.procs, q, q.next, q.prev, q.info
      ensures Valid() && S.SameRunnable(old(s.procs[..]), s.procs[..])
      ensures x.None? <==> forall m :: !S.Present(s.procs[..], m)
      ensures x.Some? ==> x.value < NPROC && S.Stepped(old(s.procs[..]), mid, s.procs[..], s.mpath, s.dpath, x.value)
      ensures old(s.mpath) != -1.0 || !S.Present(s.procs[..], S.Mlfq) ==>
        mid == old(S.PathsOf(s.procs[..], s.mpath, s.dpath))
      ensures s.mpath == -1.0 <==> !S.Present(s.procs[..], S.Mlfq)
      ensures x.Some? && s.procs[x.value].mode == S.Mlfq ==> 
        exists m: nat :: NodeOf(old(q.info[..]), m, x.value)
          && Ticked(old(q.info[..])[m], q.info[m], old(q.sliceCnt), q.sliceCnt)
      ensures x.Some? && s.procs[x.value].mode != S.Mlfq ==> q.sliceCnt == old(q.sliceCnt)
      ensures x.Some? ==> S.TurnCounted(old(s.procs[..]), s.procs[..], x.value)
      ensures x.Some? && old(s.procs[..])[x.value].mode == S.Default ==> S.LeastLevel(old(s.procs[..]), NPROC, x)
    {
      hide Sorted, Members, Queue.Chained, Matched, S.MlfqPick, S.Sane, S.Present, S.PathsOf, S.Stepped, S.SameRunnable,
        NoneRunning, S.TurnCounted, S.LeastLevel;
      var t := s.procs[..];
      var m := Choose(q, t);
      S.PickMode(t, PickOf(q.info[..], m));
      x, mid := s.Step(PickOf(q.info[..], m));
      MatchedRunnable(t, s.procs[..], q.info[..]);
      if x.Some? && s.procs[x.value].mode == S.Mlfq {
        ghost var before := q.info[..];
        assert NodeOf(before, m, x.value) && NodeOf(old(q.info[..]), m, x.value);
        q.Tick(m);
        assert Ticked(before[m], q.info[m], old(q.sliceCnt), q.sliceCnt);
        AccountKeeps(Sys(s.procs[..], before), m, q.info[m].level, q.info[m].exec);
      }
    }

    /**
     * Any number of turns in which the same processes can run, from paths no further apart than one longest
     * stride `far`: every client gets its share of the turns.
     */
    method Stretch(n: nat, ghost far: real) returns (picks: seq<nat>, turns: seq<nat>)
      requires Valid() && exists m :: S.Present(s.procs[..], m)
      requires s.mpath != -1.0 || !S.Present(s.procs[..], S.Mlfq)
      requires Spread(S.PathsOf(s.procs[..], s.mpath, s.dpath), S.WeightsOf(s.procs[..]), far)
        && Strides(S.WeightsOf(s.procs[..]), far)
      modifies s, s.procs, q, q.next, q.prev, q.info
      ensures Valid() && |picks| == n && S.SameRunnable(old(s.procs[..]), s.procs[..])
      ensures StrideSpec.Run(old(S.PathsOf(s.procs[..], s.mpath, s.dpath)), old(S.WeightsOf(s.procs[..])), picks)
      ensures End(old(S.PathsOf(s.procs[..], s.mpath, s.dpath)), old(S.WeightsOf(s.procs[..])), picks)
           == S.PathsOf(s.procs[..], s.mpath, s.dpath)
      ensures Spread(S.PathsOf(s.procs[..], s.mpath, s.dpath), S.WeightsOf(s.procs[..]), far)
      ensures forall c :: 0 <= c < NPROC + 2 && old(S.WeightsOf(s.procs[..]))[c] > 0.0 ==>
        Fair(Count(picks, c) as real, n as real, old(S.WeightsOf(s.procs[..]))[c],
          Sum(old(S.WeightsOf(s.procs[..]))), far)
      ensures S.Clients(old(s.procs[..]), turns, picks) && S.Rotated(old(s.procs[..]), turns, s.procs[..])
      ensures old(S.Within(s.procs[..], 1)) ==> S.Within(s.procs[..], 1) && S.EvenTurns(old(s.procs[..]), turns)
    {
      hide Sorted, Members, Queue.Chained, Matched, S.Sane, S.WeightOf, S.PathOf, S.WeightsOf, S.PathsOf, S.Present,
           S.SameRunnable, NoneRunning, Spread, Strides, Fair, StrideSpec.Run, S.Stretching, S.Rotated,
           S.TurnCounted, S.LeastLevel, S.Within, S.EvenTurns;
      ghost var t, p, w := s.procs[..], S.PathsOf(s.procs[..], s.mpath, s.dpath), S.WeightsOf(s.procs[..]);
      picks, turns := [], [];
      S.StretchStarts(t, s.mpath, s.dpath);
      S.RotatedNot(t);
      for k := 0 to n
        invariant |picks| == |turns| == k && Valid() && S.Stretching(t, p, w, picks, s.procs[..], s.mpath, s.dpath)
        invariant S.Rotated(t, turns, s.procs[..]) && S.Clients(t, turns, picks)
      {
        ghost var u, m, d := s.procs[..], s.mpath, s.dpath;
        var x, mid := Pass();
        S.StretchStep(t, p, w, picks, u, m, d, mid, s.procs[..], s.mpath, s.dpath, x);
        S.RotatedStep(t, turns, u, s.procs[..], x.value);
        S.SameClient(t, turns + [x.value], s.procs[..], x.value);
        picks, turns := picks + [S.ClientOf(s.procs[..], x.value)], turns + [x.value];
      }
      S.StretchEnds(t, p, w, picks, s.procs[..], s.mpath, s.dpath, far);
      S.AllEven(t, turns, s.procs[..]);
    }

    /**
     * cpu_share by the running process `me`, whose mnode is `x`: it leaves the class if it was
     * there, and the two still match.
     */
    method CpuShare(me: nat, n: int, x: nat) returns (ok: bool)
      requires s.Valid() && q.Valid() && Matched(s.procs[..], q.info[..])
      requires me < NPROC && S.OneRunning(s.procs[..], me) && S.Reserved(s.procs[..])
      requires s.procs[me].mode == S.Mlfq ==> NodeOf(q.info[..], x, me)
      modifies s, s.procs, q, q.next, q.prev, q.info
      ensures s.Valid() && q.Valid() && Matched(s.procs[..], q.info[..])
      ensures ok <==> n > 0 && S.Booked(old(s.procs[..]), NPROC) + n <= S.MAX_FIXED
      ensures !ok ==> s.procs[..] == old(s.procs[..]) && q.info[..] == old(q.info[..]) && q.order == old(q.order)
      ensures ok ==> S.Reserved(s.procs[..]) && s.procs[me].mode == S.Fixed && s.procs[me].share == n
      ensures ok ==> S.LeastOf(s.procs[..], s.mpath, s.dpath, s.procs[me].path) && !HasNode(q.info[..], me)
      ensures ok ==> S.OneEnters(old(s.procs[..]), s.procs[..], me) && s.dpath == old(s.dpath)
    {
      hide Sorted, Members, Queue.Chained, Matched, S.MlfqPick, S.Sane, S.LeastOf, S.Reserved, S.Booked;
      ok := s.Room(n);
      if !ok {
        return;
      }
      var t := s.procs[..];
      ghost var f := q.info[..];
      var m := Choose(q, t);
      ghost var g := q.info[..];
      s.Enter(me, n, PickOf(q.info[..], m));
      if t[me].mode == S.Mlfq {
        q.Delete(x);
      }
      LeftMatched(t, f, g, me, x, s.procs[..], q.info[..]);
    }
  }

  lemma OwnNode(t: seq<Proc>, f: seq<Info>, me: nat)
    requires Matched(t, f) && S.OneRunning(t, me) && me < NPROC
    ensures t[me].mode != S.Mlfq ==> forall y: nat :: !NodeOf(f, y, me)
    ensures forall x: nat, y: nat :: NodeOf(f, x, me) && NodeOf(f, y, me) ==> x == y
  {
    assert S.Alive(t[me]);
  }

  /**
   * A process leaves the class with its node, which the walk may have deleted already because the process is running.
   */
  lemma LeftMatched(t: seq<Proc>, f: seq<Info>, g: seq<Info>, me: nat, x: nat, t': seq<Proc>, r: seq<Info>)
    requires Matched(t, f) && OnlyDead(f, t, g) && S.OneRunning(t, me) && me < NPROC
    requires if t[me].mode == S.Mlfq then NodeOf(f, x, me) && r == g[x := Info(NPROC, false, 0, 0)] else r == g
    requires |t'| == NPROC && t'[me].mode == S.Fixed && forall i :: 0 <= i < NPROC && i != me ==>
      t'[i].state == t[i].state && t'[i].mode == t[i].mode
    ensures Matched(t', r) && !HasNode(r, me)
  {
    OwnNode(t, f, me);
    forall y: nat, i: nat | NodeOf(r, y, i)
      ensures NodeOf(f, y, i) && i != me
    {
      assert r[y] == g[y] == f[y];
      assert NodeOf(f, y, i);
    }
    forall i: nat | i < NPROC && S.Alive(t'[i]) && t'[i].mode == S.Mlfq
      ensures HasNode(r, i)
    {
      var y: nat :| NodeOf(f, y, i);
      assert !Dead(f, States(t), y);
      assert NodeOf(r, y, i);
    }
  }

  /** The node has been charged a tick of a slice that had `slice` ticks. */
  ghost predicate Ticked(before: Info, after: Info, slice: nat, slice': nat) {
    var c := Charge(slice, before.level, before.exec);
    after == before.(level := c.level, exec := c.exec) && slice' == c.slice
  }

  lemma MatchedRunnable(t: seq<Proc>, t': seq<Proc>, info: seq<Info>)
    requires Matched(t, info) && S.SameRunnable(t, t') && NoneRunning(t)
    ensures Matched(t', info) && NoneRunning(t')
  {
  }

  // ----- a slot is reused -----

  lemma {:induction false} RunMore(s: Sys, es: seq<Event>, e: Event)
    requires Run(s, es) && Allowed(Exec(s, es), e) && Keeps(Exec(s, es), e)
    ensures Run(s, es + [e]) && Exec(s, es + [e]) == Do(Exec(s, es), e)
    decreases |es|
  {
    hide Allowed, Do, Keeps;
    var all := es + [e];
    if es == [] {
      assert all[1..] == [];
    } else {
      assert all[1..] == es[1..] + [e];
      RunMore(Do(s, es[0]), es[1..], e);
    }
  }

  /** A run that keeps the match leads from `s` to `y`. */
  ghost predicate Leads(s: Sys, es: seq<Event>, y: Sys) {
    Run(s, es) && Exec(s, es) == y
  }

  lemma LeadsNowhere(s: Sys)
    ensures Leads(s, [], s)
  {
  }

  lemma Next(s: Sys, es: seq<Event>, y: Sys, e: Event, z: Sys)
    requires Leads(s, es, y) && Allowed(y, e) && Keeps(y, e) && Do(y, e) == z
    ensures Leads(s, es + [e], z)
  {
    RunMore(s, es, e);
  }

  /** Processes 0 and 1 with the given states and modes, and process 2 of the default class, which can run. */
  function Three(x: S.State, m: S.Mode, y: S.State, n: S.Mode, z: S.State): (t: seq<Proc>)
    ensures |t| == NPROC
  {
    [S.Proc(x, m, 0.0, 0, 0), S.Proc(y, n, 0.0, 0, 0), S.Proc(z, S.Default, 0.0, 0, 0)]
    + seq(NPROC - 3, _ => S.Proc(S.Unused, S.Default, 0.0, 0, 0))
  }

  /** The walk stops at the first node after the header, and deletes nothing. */
  lemma StopsAtOnce(info: seq<Info>, st: seq<S.State>, order: seq<nat>, j: nat, m: nat, info': seq<Info>,
      order': seq<nat>)
    requires |order| > 1 && order[0] == Header(0) && Runs(info, st, order[1])
    requires FirstRuns(info, st, order, j, m) && Swept(info, st, order, j, info', order')
    ensures m == order[1] && info' == info && order' == order
  {
    hide Rest;
    assert j == 1;
    assert order[..1] == [Header(0)];
    RestHeader(info, st, order[..1]);
  }

  lemma RestHeader(info: seq<Info>, st: seq<S.State>, xs: seq<nat>)
    requires xs == [Header(0)]
    ensures Rest(info, st, xs) == xs
  {
    assert xs[..0] == [];
  }

  /** The list when the only nodes are `x` and `y`, at level 0. */
  function Pairs(x: nat, y: nat): seq<nat> {
    [Header(0), x, y, Header(1), Header(2), Header(3)]
  }

  lemma MovedBack(order: seq<nat>, order': seq<nat>, x: nat, y: nat)
    requires x < NPROC && y < NPROC && x != y && order == Pairs(x, y) && MovedTo(order, order', x, Header(1))
    ensures order' == Pairs(y, x)
  {
    MovedSix(order, order', Header(0), x, y, Header(1), Header(2), Header(3));
  }

  lemma MovedSix(order: seq<nat>, order': seq<nat>, h0: nat, x: nat, y: nat, h1: nat, h2: nat, h3: nat)
    requires order == [h0, x, y, h1, h2, h3] && MovedTo(order, order', x, h1)
    requires h0 != x && x != y && h1 != x && h2 != x && h3 != x && h1 != h0 && h1 != y && h1 != h2 && h1 != h3
    ensures order' == [h0, y, x, h1, h2, h3]
  {
    var k: nat, j: nat :| k < |order| && order[k] == x && j < |order| - 1
                          && Collections.Without(order, k)[j] == h1
                          && order' == Collections.With(Collections.Without(order, k), j, x);
    assert k == 1;
    Five(h0, x, y, h1, h2, h3);
    ThirdOf(h0, y, h1, h2, h3, j);
  }

  lemma Five(h0: nat, x: nat, y: nat, h1: nat, h2: nat, h3: nat)
    ensures Collections.Without([h0, x, y, h1, h2, h3], 1) == [h0, y, h1, h2, h3]
    ensures Collections.With([h0, y, h1, h2, h3], 2, x) == [h0, y, x, h1, h2, h3]
  {
  }

  lemma ThirdOf(h0: nat, y: nat, h1: nat, h2: nat, h3: nat, j: nat)
    requires j < 5 && [h0, y, h1, h2, h3][j] == h1 && h1 != h0 && h1 != y && h1 != h2 && h1 != h3
    ensures j == 2
  {
  }

  /**
   * A choice and a tick: the process in front is charged the one tick of a slice at level
   * 0 and goes behind the other.
   */
  method FrontTicks(q: Queue, x: nat, y: nat, t: seq<Proc>)
    requires q.Valid() && x < NPROC && y < NPROC && x != y && q.order == Pairs(x, y) && |t| == NPROC
    requires q.highpr == NIL || q.highpr == x
    requires q.sliceCnt == 0 && q.info[x].used && q.info[x].level == 0 && q.info[x].exec < 4
      && Runs(q.info[..], States(t), x)
    modifies q, q.next, q.prev, q.info
    ensures q.Valid() && q.order == Pairs(y, x) && q.highpr == NIL && q.sliceCnt == 0
    ensures q.info[..] == old(q.info[..])[x := old(q.info[x]).(exec := old(q.info[x]).exec + 1)]
  {
    hide Sorted, Members, Queue.Chained, Swept, FirstRuns, MovedTo;
    Front(q, x, y, t);
    q.Tick(x);
    MovedBack(Pairs(x, y), q.order, x, y);
  }

  /** A choice: the process in front. */
  method Front(q: Queue, x: nat, y: nat, t: seq<Proc>)
    requires q.Valid() && x < NPROC && q.order == Pairs(x, y) && |t| == NPROC
    requires q.highpr == NIL || q.highpr == x
    requires q.info[x].used && Runs(q.info[..], States(t), x)
    modifies q, q.next, q.prev, q.info
    ensures q.Valid() && q.order == old(q.order) && q.highpr == x && q.sliceCnt == old(q.sliceCnt)
      && q.info[..] == old(q.info[..])
  {
    hide Sorted, Members, Queue.Chained, Swept, FirstRuns;
    ghost var f, o, h := q.info[..], q.order, q.highpr;
    var m := q.Choose(States(t));
    if h == NIL {
      ghost var j: nat :| FirstRuns(f, States(t), o, j, m) && Swept(f, States(t), o, j, q.info[..], q.order);
      StopsAtOnce(f, States(t), o, j, m, q.info[..], q.order);
    }
  }

  /** Process 0 or 1, of the default class and able to run, calls run_MLFQ and gets node `m`. */
  lemma Joins(s: Sys, es: seq<Event>, y: Sys, i: nat, m: nat) returns (more: seq<Event>)
    requires Leads(s, es, y) && |y.t| == NPROC && |y.info| == NODES && i < NPROC && m < NPROC && !y.info[m].used
    requires y.t[i].state.Runnable? && y.t[i].mode == S.Default
    ensures Leads(s, more, Sys(y.t[i := y.t[i].(mode := S.Mlfq)], y.info[m := Info(i, true, 0, 0)]))
  {
    hide Leads, HasNode;
    var p := y.t[i];
    Next(s, es, y, Dispatch(i), y.(t := y.t[i := p.(state := S.Running)]));
    more := es + [Dispatch(i)];
    var q := Sys(y.t[i := p.(state := S.Running, mode := S.Mlfq)], y.info[m := Info(i, true, 0, 0)]);
    Next(s, more, y.(t := y.t[i := p.(state := S.Running)]), Join(i, m), q);
    more := more + [Join(i, m)];
    Next(s, more, q, Yield(i), Sys(y.t[i := p.(mode := S.Mlfq)], q.info));
    more := more + [Yield(i)];
  }

  /** Process `i`, which has node `x`, is charged a tick and runs; it goes on to exit, or can run again. */
  lemma Ticks(s: Sys, es: seq<Event>, y: Sys, i: nat, x: nat, exits: bool) returns (more: seq<Event>)
    requires Leads(s, es, y) && |y.t| == NPROC && |y.info| == NODES && i < NPROC && x < NPROC && y.info[x].used
    requires y.t[i].state.Runnable?
    ensures Leads(s, more, Sys(y.t[i := y.t[i].(state := if exits then S.Zombie else S.Runnable)],
                               y.info[x := y.info[x].(exec := y.info[x].exec + 1)]))
  {
    hide Leads, HasNode;
    var p, n := y.t[i], y.info[x].exec + 1;
    var info := y.info[x := y.info[x].(exec := n)];
    Next(s, es, y, Account(x, y.info[x].level, n), y.(info := info));
    more := es + [Account(x, y.info[x].level, n)];
    Next(s, more, y.(info := info), Dispatch(i), Sys(y.t[i := p.(state := S.Running)], info));
    more := more + [Dispatch(i)];
    var last := if exits then Exit(i) else Yield(i);
    Next(s, more, Sys(y.t[i := p.(state := S.Running)], info), last,
         Sys(y.t[i := p.(state := if exits then S.Zombie else S.Runnable)], info));
    more := more + [last];
  }

  /**
   * Processes 0 and 1 join the class, and each is charged a tick; process 0 then exits. While the slice of process 1
   * is to come, process 2 waits for process 0 and forks: its child takes slot 0, whose node is still in the list. All
   * events before the fork keep the match, and the fork does not. The next tick of process 1 takes it behind that
   * node, and the queue's answer is the child, of the default class, although process 1 can run.
   */
  method SlotReused() returns (q: Queue, ghost start: Sys, ghost es: seq<Event>, t: seq<Proc>)
    ensures fresh(q) && fresh(q.next) && fresh(q.prev) && fresh(q.info) && q.Valid()
    ensures Matched(start.t, start.info) && Run(start, es)
    ensures var y := Exec(start, es);
      && Allowed(y, Fork(0)) && !Keeps(y, Fork(0)) && |Do(y, Fork(0)).t| > 2
      && t == Do(y, Fork(0)).t[2 := Do(y, Fork(0)).t[2].(state := S.Runnable)]
    ensures |t| == NPROC && S.Ready(t, 0, S.Default) && S.Ready(t, 1, S.Mlfq) && HasNode(q.info[..], 1)
    ensures forall i :: 0 <= i < NPROC ==> t[i].mode != S.Fixed && t[i].level == 0
    ensures q.highpr < NPROC && q.info[q.highpr].self == 0 && !S.MlfqPick(t, PickOf(q.info[..], q.highpr))
  {
    hide Sorted, Members, Queue.Chained, Leads, Run, Exec, Runs, Allowed, Keeps, Do, Matched;
    var a, b;
    ghost var blank;
    q, a, b, blank := MlfqLife.TwoJoin();
    var t0 := Three(S.Runnable, S.Default, S.Runnable, S.Default, S.Runnable);
    start := Sys(t0, blank);
    NobodyYet(t0, blank);
    es := Joins(start, [], start, 0, a) by { LeadsNowhere(start); }
    var t1 := t0[0 := t0[0].(mode := S.Mlfq)];
    es := Joins(start, es, Sys(t1, blank[a := Info(0, true, 0, 0)]), 1, b);
    var t2 := t1[1 := t1[1].(mode := S.Mlfq)];
    NodeRuns(q.info[..], t2, b, 1);
    NodeRuns(q.info[..], t2, a, 0);
    assert t2[1 := t2[1].(state := S.Runnable)] == t2;
    es := Ticks(start, es, Sys(t2, q.info[..]), 1, b, false);
    FrontTicks(q, b, a, t2);
    NodeRuns(q.info[..], t2, a, 0);
    es := Ticks(start, es, Sys(t2, q.info[..]), 0, a, true);
    FrontTicks(q, a, b, t2);
    var t3 := t2[0 := t2[0].(state := S.Zombie)];
    NodeRuns(q.info[..], t3, b, 1);
    Front(q, b, a, t3);
    es := WaitsFor(start, es, t3, q.info[..], a);
    var t5 := t3[0 := t3[0].(state := S.Runnable, mode := S.Default)];
    NodeRuns(q.info[..], t5, b, 1);
    FrontTicks(q, b, a, t5);
    NodeRuns(q.info[..], t5, a, 0);
    Front(q, a, b, t5);
    t := t5;
    assert NodeOf(q.info[..], b, 1);
  }

  lemma NobodyYet(t: seq<Proc>, blank: seq<Info>)
    requires |t| == NPROC && |blank| == NODES && (forall x: nat :: x < NPROC ==> !blank[x].used)
    requires forall i :: 0 <= i < NPROC ==> t[i].mode == S.Default
    ensures Matched(t, blank)
  {
  }

  lemma NodeRuns(info: seq<Info>, t: seq<Proc>, x: nat, i: nat)
    requires |info| == NODES && |t| == NPROC && x < NPROC && i < NPROC && info[x].self == i && t[i].state.Runnable?
    ensures Runs(info, States(t), x)
  {
  }

  /** Process 2 runs and waits for process 0, which has exited; the fork that follows does not keep the match. */
  lemma WaitsFor(s: Sys, es: seq<Event>, t: seq<Proc>, info: seq<Info>, a: nat) returns (more: seq<Event>)
    requires Leads(s, es, Sys(t, info)) && |t| == NPROC && |info| == NODES && NodeOf(info, a, 0)
    requires t[2].state.Runnable? && t[0].state.Zombie?
    ensures Run(s, more)
    ensures var y := Exec(s, more);
      && Allowed(y, Fork(0)) && !Keeps(y, Fork(0)) && |Do(y, Fork(0)).t| > 2
      && Do(y, Fork(0)).t[2 := Do(y, Fork(0)).t[2].(state := S.Runnable)]
         == t[0 := t[0].(state := S.Runnable, mode := S.Default)]
  {
    hide Run, Exec;
    var t1 := t[2 := t[2].(state := S.Running)];
    Next(s, es, Sys(t, info), Dispatch(2), Sys(t1, info));
    more := es + [Dispatch(2)];
    var t2 := t1[0 := t1[0].(state := S.Unused)];
    Next(s, more, Sys(t1, info), Reap(0), Sys(t2, info));
    more := more + [Reap(0)];
    assert t[2].(state := S.Runnable) == t[2];
  }

  /**
   * As long as the slice of a node is in progress whose process is of the default class and can run, the queue answers
   * that process at every choice; it is not charged as one of the class, so the slice never ends. Over any number of
   * turns no process of the class is chosen, and the class's path does not advance, although some can run.
   */
  method Starves(q: Queue, s: S.Scheduler, n: nat) returns (picks: seq<nat>)
    requires q.Valid() && q.highpr != NIL && s.Valid() && s.mpath != -1.0
    requires S.Ready(s.procs[..], q.info[q.highpr].self, S.Default) && S.Present(s.procs[..], S.Mlfq)
    modifies q, q.next, q.prev, q.info, s, s.procs
    ensures q.Valid() && q.highpr == old(q.highpr) && s.Valid() && s.mpath == old(s.mpath)
    ensures S.SameRunnable(old(s.procs[..]), s.procs[..])
    ensures |picks| == n && forall k :: 0 <= k < n ==> picks[k] < NPROC && s.procs[picks[k]].mode != S.Mlfq
  {
    hide Sorted, Members, Queue.Chained, S.Sane, S.Present, S.MlfqPick, S.PathsOf, S.Stepped;
    ghost var h, i := q.highpr, q.info[q.highpr].self;
    ghost var t := s.procs[..];
    picks := [];
    for k := 0 to n
      invariant q.Valid() && q.highpr == h && q.info[h].self == i && s.Valid() && s.mpath == old(s.mpath)
      invariant S.SameRunnable(t, s.procs[..]) && S.Ready(s.procs[..], i, S.Default) && S.Present(s.procs[..], S.Mlfq)
      invariant |picks| == k && forall j :: 0 <= j < k ==> picks[j] < NPROC && t[picks[j]].mode != S.Mlfq
    {
      ghost var u := s.procs[..];
      NodeRuns(q.info[..], u, h, i);
      var m := q.Choose(States(s.procs[..]));
      var x, mid := s.Step(PickOf(q.info[..], m));
      S.RunnablePresent(u, s.procs[..], S.Mlfq);
      picks := picks + [x.value];
    }
  }

  /** The reused slot leads to such a state, in which process 1 of the class can run. */
  method Starved() returns (q: Queue, s: S.Scheduler)
    ensures fresh(q) && fresh(q.next) && fresh(q.prev) && fresh(q.info) && fresh(s) && fresh(s.procs)
    ensures q.Valid() && q.highpr != NIL && s.Valid() && s.mpath != -1.0
    ensures S.Ready(s.procs[..], q.info[q.highpr].self, S.Default)
    ensures S.Ready(s.procs[..], 1, S.Mlfq) && S.Present(s.procs[..], S.Mlfq)
  {
    hide Sorted, Members, Queue.Chained, S.Sane, S.Present, S.MlfqPick, Run, Exec, Allowed, Keeps, Do, Matched;
    var t;
    ghost var start, es;
    q, start, es, t := SlotReused();
    assert S.Present(t, S.Mlfq) && S.Sane(t) by { NoShares(t); }
    s := new S.Scheduler(t);
    s.UpdateVals(Some(0));
    S.SameTotals(t, s.procs[..], 0);
  }

  lemma NoShares(t: seq<Proc>)
    requires |t| == NPROC && S.Ready(t, 1, S.Mlfq) && forall i :: 0 <= i < NPROC ==>
      t[i].mode != S.Fixed && t[i].level == 0
    ensures S.Sane(t) && S.Present(t, S.Mlfq)
  {
    NoTotal(t, NPROC);
  }

  lemma {:induction false} NoTotal(t: seq<Proc>, k: nat)
    requires k <= |t| && forall i :: 0 <= i < |t| ==> t[i].mode != S.Fixed
    ensures S.Total(t, k) == 0
  {
    if k > 0 {
      NoTotal(t, k - 1);
    }
  }
}
