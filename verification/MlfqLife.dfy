/** proc.c: how long a process that does not block stays at each level of the queue. */
module MlfqLife {
  import opened MlfqQueue
  import Sched

  /**
   * A process that never blocks, as its own ticks see it. `starting` says that its next tick starts a slice; the
   * slice counter is then what the last process left, 0 unless that one blocked within its slice.
   */
  datatype Life = Life(level: nat, exec: nat, slice: nat, starting: bool)

  function After(l: Life, left: nat): Life {
    var c := Charge(if l.starting then left else l.slice, l.level, l.exec);
    Life(c.level, c.exec, c.slice, c.ended)
  }

  function Ticks(l: Life, lefts: seq<nat>): Life {
    if lefts == [] then l else After(Ticks(l, lefts[..|lefts| - 1]), lefts[|lefts| - 1])
  }

  /** How many of its slices were cut short by what another process left. */
  function Cuts(l: Life, lefts: seq<nat>): nat {
    if lefts == [] then 0 else
      var before := Ticks(l, lefts[..|lefts| - 1]);
      Cuts(l, lefts[..|lefts| - 1]) + if before.starting && lefts[|lefts| - 1] > 0 then 1 else 0
  }

  /** Whatever the others do, a process spends exactly 5 ticks at level 0. */
  lemma {:induction false} FiveTicks(lefts: seq<nat>)
    requires |lefts| <= 5
    ensures Ticks(Life(0, 0, 0, true), lefts) == if |lefts| < 5 then Life(0, |lefts|, 0, true) else Life(1, 0, 0, true)
  {
    if lefts != [] {
      FiveTicks(lefts[..|lefts| - 1]);
    }
  }

  /**
   * It spends exactly 10 ticks at level 1 if and only if an even number of its slices
   * there were cut, and 11 otherwise.
   */
  lemma TenTicks(lefts: seq<nat>)
    requires |lefts| == 11
    ensures var l := Life(1, 0, 0, true);
      && (forall n :: 0 <= n < 10 ==> Ticks(l, lefts[..n]).level == 1)
      && (Ticks(l, lefts[..10]) == Life(2, 0, 0, true) <==> Cuts(l, lefts[..10]) % 2 == 0)
      && (Cuts(l, lefts[..10]) % 2 == 1 ==> Ticks(l, lefts[..10]).level == 1 && Ticks(l, lefts) == Life(2, 0, 0, true))
  {
    var l := Life(1, 0, 0, true);
    forall n | 0 <= n < 10
      ensures Ticks(l, lefts[..n]).level == 1
    {
      AtLevelOne(lefts[..n]);
    }
    AtLevelOne(lefts[..9]);
    assert lefts[..10][..9] == lefts[..9];
    assert lefts[..11] == lefts;
  }

  lemma {:induction false} AtLevelOne(lefts: seq<nat>)
    requires |lefts| < 10
    ensures var l := Life(1, 0, 0, true); var r := Ticks(l, lefts);
      && r.level == 1 && r.exec == |lefts| && r.slice == (if r.starting then 0 else 1)
      && (r.starting <==> (|lefts| + Cuts(l, lefts)) % 2 == 0)
  {
    if lefts != [] {
      AtLevelOne(lefts[..|lefts| - 1]);
    }
  }

  /** With nobody blocking within a slice, no slice is cut. */
  lemma {:induction false} NoCuts(l: Life, lefts: seq<nat>)
    requires forall i :: 0 <= i < |lefts| ==> lefts[i] == 0
    ensures Cuts(l, lefts) == 0
  {
    if lefts != [] {
      NoCuts(l, lefts[..|lefts| - 1]);
    }
  }

  /** At level 2 a slice ends with the counter at 4, and the time there starts again with a slice at 1000 or more. */
  lemma LastLevel(l: Life, left: nat)
    requires l.level == 2
    ensures var r, c := After(l, left), (if l.starting then left else l.slice) + 1;
      && r.level == 2 && (r.starting <==> c >= 4) && r.slice == (if c >= 4 then 0 else c)
      && r.exec == if c >= 4 && l.exec + 1 >= 1000 then 0 else l.exec + 1
  {
  }

  /** A process never leaves level 2. */
  lemma {:induction false} StaysLast(l: Life, lefts: seq<nat>)
    requires l.level == 2
    ensures Ticks(l, lefts).level == 2
  {
    if lefts != [] {
      StaysLast(l, lefts[..|lefts| - 1]);
      LastLevel(Ticks(l, lefts[..|lefts| - 1]), lefts[|lefts| - 1]);
    }
  }

  lemma NextTick(m: nat)
    ensures (m + 1) % 4 == (if m % 4 == 3 then 0 else m % 4 + 1)
    ensures (m + 1) % 1000 == if m % 4 == 3 && m % 1000 + 1 >= 1000 then 0 else m % 1000 + 1
  {
    var q, r := m / 1000, m % 1000;
    var a, b := r / 4, r % 4;
    Fours(m, 250 * q + a, b);
    if b < 3 {
      Fours(m + 1, 250 * q + a, b + 1);
      Thousands(m + 1, q, r + 1);
    } else {
      Fours(m + 1, 250 * q + a + 1, 0);
      if r == 999 {
        Thousands(m + 1, q + 1, 0);
      } else {
        Thousands(m + 1, q, r + 1);
      }
    }
  }

  lemma Fours(x: nat, q: nat, r: nat)
    requires x == 4 * q + r && r < 4
    ensures x % 4 == r
  {
  }

  lemma Thousands(x: nat, q: nat, r: nat)
    requires x == 1000 * q + r && r < 1000
    ensures x % 1000 == r
  {
  }

  /** With no slice cut it is there four ticks at a time, and its time there starts again after 1000. */
  lemma {:induction false} FourByFour(lefts: seq<nat>)
    requires Cuts(Life(2, 0, 0, true), lefts) == 0
    ensures Ticks(Life(2, 0, 0, true), lefts) == Life(2, |lefts| % 1000, |lefts| % 4, |lefts| % 4 == 0)
  {
    hide After;
    if lefts != [] {
      var m := |lefts| - 1;
      FourByFour(lefts[..m]);
      LastLevel(Ticks(Life(2, 0, 0, true), lefts[..m]), lefts[m]);
      NextTick(m);
    }
  }

  // ----- the life of a node, tick by tick -----

  /** The nodes in use are among those of `info`, for the same processes. */
  ghost predicate Among(info: seq<Info>, info': seq<Info>) {
    |info| == |info'| == NODES && forall x: nat :: x < NPROC && info'[x].used ==>
      info[x].used && info'[x].self == info[x].self
  }

  /** At every choice the node's process can run. */
  ghost predicate NeverBlocks(info: seq<Info>, sts: seq<seq<Sched.State>>, m: nat) {
    forall k :: 0 <= k < |sts| ==> Runs(info, sts[k], m)
  }

  /** At every choice no other process of the class can run. */
  ghost predicate Alone(info: seq<Info>, sts: seq<seq<Sched.State>>, m: nat) {
    |info| == NODES && forall k, x: nat :: 0 <= k < |sts| && x < NPROC && x != m && info[x].used ==>
      !Runs(info, sts[k], x)
  }

  /** At every choice every process of the class can run. */
  ghost predicate NobodyBlocks(info: seq<Info>, sts: seq<seq<Sched.State>>) {
    |info| == NODES && forall k, x: nat :: 0 <= k < |sts| && x < NPROC && info[x].used ==> Runs(info, sts[k], x)
  }

  /** The node's process sleeps, so that the walk passes it over. */
  ghost predicate Sleeps(info: seq<Info>, st: seq<Sched.State>, x: nat) {
    |info| == NODES && |st| == NPROC && x < NPROC && info[x].used && info[x].self < NPROC && st[info[x].self].Sleeping?
  }

  /** The nodes of processes asleep are as they were. */
  ghost predicate Rested(info: seq<Info>, st: seq<Sched.State>, info': seq<Info>) {
    |info| == |info'| == NODES && forall x: nat :: Sleeps(info, st, x) ==> info'[x] == info[x]
  }

  ghost predicate SleepsOn(info: seq<Info>, sts: seq<seq<Sched.State>>, x: nat) {
    |info| == NODES && x < NPROC && forall k :: 0 <= k < |sts| ==> Sleeps(info, sts[k], x)
  }

  /** The nodes of the processes that slept all along are as they were. */
  ghost predicate Undisturbed(info: seq<Info>, sts: seq<seq<Sched.State>>, info': seq<Info>) {
    |info| == |info'| == NODES && forall x: nat :: SleepsOn(info, sts, x) ==> info'[x] == info[x]
  }

  function Count(turns: seq<bool>): nat {
    if turns == [] then 0 else Count(turns[..|turns| - 1]) + if turns[|turns| - 1] then 1 else 0
  }

  /** The choices that were ticks of `m`: they picked the class, and the queue answered `m`. */
  function Mine(answers: seq<nat>, turns: seq<bool>, m: nat): (r: seq<bool>)
    requires |answers| == |turns|
    ensures |r| == |turns| && forall k :: 0 <= k < |r| ==> (r[k] <==> turns[k] && answers[k] == m)
  {
    seq(|turns|, k requires 0 <= k < |turns| => turns[k] && answers[k] == m)
  }

  lemma CountMore(turns: seq<bool>, k: nat)
    requires k < |turns|
    ensures Count(turns[..k + 1]) == Count(turns[..k]) + if turns[k] then 1 else 0
  {
    assert turns[..k + 1][..k] == turns[..k];
  }

  lemma NothingYet(turns: seq<bool>, m: nat)
    ensures Count(turns[..0]) == 0 && Count(Mine([], turns[..0], m)) == 0
  {
  }

  lemma MineMore(answers: seq<nat>, turns: seq<bool>, m: nat, k: nat, r: nat)
    requires k < |turns| && |answers| == k
    ensures Count(Mine(answers + [r], turns[..k + 1], m))
         == Count(Mine(answers, turns[..k], m)) + if turns[k] && r == m then 1 else 0
  {
    var x := Mine(answers + [r], turns[..k + 1], m);
    assert x[..k] == Mine(answers, turns[..k], m);
  }

  lemma AnswerRuns(f: seq<Info>, info: seq<Info>, st: seq<Sched.State>, r: nat)
    requires Among(f, info) && r < NPROC && info[r].used && Runs(info, st, r)
    ensures Runs(f, st, r) && f[r].used
  {
  }

  /** What a choice does to a node whose process can run, and to the others. */
  lemma ChoiceFacts(info: seq<Info>, st: seq<Sched.State>, order: seq<nat>, j: nat, r: nat, info': seq<Info>,
      order': seq<nat>, m: nat)
    requires Sorted(info, order) && Members(info, order) && m < NPROC && info[m].used && Runs(info, st, m)
    requires FirstRuns(info, st, order, j, r) && Swept(info, st, order, j, info', order')
    ensures r < NPROC && info[r].used && Runs(info, st, r) && Among(info, info') && info'[m] == info[m]
    ensures Rested(info, st, info')
  {
    hide Rest;
    var i :| 0 <= i < |order| && order[i] == m;
    assert j < |order|;
    assert order[j] in order;
  }

  lemma AmongTick(info: seq<Info>, info': seq<Info>, info'': seq<Info>, n: nat)
    requires Among(info, info') && n < NPROC && |info''| == NODES && info'' == info'[n := info''[n]]
      && info''[n].self == info'[n].self && info''[n].used == info'[n].used
    ensures Among(info, info'')
  {
  }

  /** The queue has the node where the life is. */
  ghost predicate Shows(q: Queue, m: nat, l: Life)
    reads q, q.info
  {
    && m < NPROC && NPROC < q.info.Length && q.info[m].used && q.info[m].level == l.level && q.info[m].exec == l.exec
    && (!l.starting ==> q.highpr == m && q.sliceCnt == l.slice)
  }

  /** One choice of the class's process. */
  method Chosen(q: Queue, m: nat, st: seq<Sched.State>) returns (r: nat)
    requires q.Valid() && m < NPROC && q.info[m].used && Runs(q.info[..], st, m)
    modifies q, q.next, q.prev, q.info
    ensures q.Valid() && q.highpr == r && q.sliceCnt == old(q.sliceCnt) && r < NPROC && q.info[r].used
    ensures old(q.info[r]).used && Runs(old(q.info[..]), st, r)
    ensures Among(old(q.info[..]), q.info[..]) && q.info[m] == old(q.info[m])
    ensures old(q.highpr) != NIL && Runs(old(q.info[..]), st, old(q.highpr)) ==> r == old(q.highpr)
    ensures Rested(old(q.info[..]), st, q.info[..])
  {
    hide Sorted, Members, Swept, FirstRuns, Queue.Chained;
    ghost var f, o, h := q.info[..], q.order, q.highpr;
    r := q.Choose(st);
    if h == NIL || !Runs(f, st, h) {
      ghost var j: nat :| FirstRuns(f, st, o, j, r) && Swept(f, st, o, j, q.info[..], q.order);
      ChoiceFacts(f, st, o, j, r, q.info[..], q.order, m);
    }
  }

  /** One choice, and the accounting for it if the stride scheduler picks the class. */
  method Turn(q: Queue, m: nat, st: seq<Sched.State>, turn: bool, ghost l: Life) returns (r: nat)
    requires q.Valid() && Shows(q, m, l) && Runs(q.info[..], st, m)
    modifies q, q.next, q.prev, q.info
    ensures q.Valid() && q.info[m].self == old(q.info[m]).self && Among(old(q.info[..]), q.info[..])
    ensures r < NPROC && old(q.info[r]).used && Runs(old(q.info[..]), st, r)
    ensures old(q.highpr) != NIL && Runs(old(q.info[..]), st, old(q.highpr)) ==> r == old(q.highpr)
    ensures Shows(q, m, if turn && r == m then After(l, old(q.sliceCnt)) else l)
    ensures !turn ==> q.highpr == r && q.sliceCnt == old(q.sliceCnt)
    ensures turn ==> q.highpr == r || (q.highpr == NIL && q.sliceCnt == 0)
    ensures turn && r == m && After(l, old(q.sliceCnt)).starting ==> q.highpr == NIL
    ensures Rested(old(q.info[..]), st, q.info[..])
  {
    hide Sorted, Members, Queue.Chained, MovedTo;
    r := Chosen(q, m, st);
    if turn {
      ghost var before := q.info[..];
      q.Tick(r);
      AmongTick(old(q.info[..]), before, q.info[..], r);
    }
  }

  /** What the run so far has cut from the slices of a process alone in its class. */
  ghost predicate Lone(l: Life, slice: nat, lefts: seq<nat>, now: nat) {
    && (if lefts == [] then now == slice else Ticks(l, lefts).starting ==> now == 0)
    && Cuts(l, lefts) == if l.starting && slice > 0 && lefts != [] then 1 else 0
  }

  /** With nobody blocking, a slice starts with the counter at 0. */
  ghost predicate Calm(l: Life, lefts: seq<nat>, highpr: nat, m: nat, slice: nat) {
    Cuts(l, lefts) == 0 && (highpr == NIL || (highpr == m && Ticks(l, lefts).starting) ==> slice == 0)
  }

  /**
   * A run of the queue in which the process of node `m` can run at every choice: `turns[k]` says whether the
   * stride scheduler then picks the class. `answers` are the nodes that choosebymlfq answered, of processes that
   * could run then; `lefts` are the values of the slice counter that the ticks of `m` found, one for each choice that
   * picked the class and answered `m`. Its level and time there go as its life says, whatever the other processes do.
   */
  method Live(q: Queue, m: nat, sts: seq<seq<Sched.State>>, turns: seq<bool>, ghost l: Life)
      returns (answers: seq<nat>, ghost lefts: seq<nat>)
    requires q.Valid() && Shows(q, m, l) && |turns| == |sts|
    requires NeverBlocks(q.info[..], sts, m)
    modifies q, q.next, q.prev, q.info
    ensures q.Valid() && Shows(q, m, Ticks(l, lefts)) && q.info[m].self == old(q.info[m]).self
    ensures Among(old(q.info[..]), q.info[..])
    ensures Undisturbed(old(q.info[..]), sts, q.info[..])
    ensures |answers| == |sts| && |lefts| == Count(Mine(answers, turns, m))
    ensures forall k :: 0 <= k < |sts| ==> Runs(old(q.info[..]), sts[k], answers[k]) && old(q.info[..])[answers[k]].used
    ensures old(Alone(q.info[..], sts, m)) ==> |lefts| == Count(turns) && Lone(l, old(q.sliceCnt), lefts, q.sliceCnt)
    ensures old(NobodyBlocks(q.info[..], sts)) && Calm(l, [], old(q.highpr), m, old(q.sliceCnt)) ==> Cuts(l, lefts) == 0
    ensures l == Life(0, 0, 0, true) && |lefts| <= 5 ==> q.info[m].level == if |lefts| < 5 then 0 else 1
    ensures l == Life(1, 0, 0, true) && |lefts| <= 11 ==>
      && (|lefts| < 10 ==> q.info[m].level == 1)
      && (|lefts| == 10 ==> (q.info[m].level == 2 <==> Cuts(l, lefts) % 2 == 0))
      && (|lefts| == 11 ==> q.info[m].level == 2)
    ensures l.level == 2 ==> q.info[m].level == 2
    ensures l == Life(2, 0, 0, true) && Cuts(l, lefts) == 0 ==> q.info[m].exec == |lefts| % 1000
  {
    hide Count, Mine, Runs, NeverBlocks, Alone, NobodyBlocks, Sorted, Members, Queue.Chained, Calm, Lone, After, Among,
      Charge, Rested, Undisturbed;
    ghost var f, slice, high := q.info[..], q.sliceCnt, q.highpr;
    lefts, answers := [], [];
    LifeStarts(l, slice, high, m, f);
    NothingYet(turns, m);
    for k := 0 to |sts|
      invariant q.Valid() && Shows(q, m, Ticks(l, lefts)) && q.info[m].self == f[m].self && Among(f, q.info[..])
      invariant Undisturbed(f, sts, q.info[..])
      invariant |answers| == k && |lefts| == Count(Mine(answers, turns[..k], m))
      invariant forall j :: 0 <= j < k ==> Runs(f, sts[j], answers[j]) && answers[j] < NPROC && f[answers[j]].used
      invariant Alone(f, sts, m) ==> |lefts| == Count(turns[..k]) && Lone(l, slice, lefts, q.sliceCnt)
      invariant NobodyBlocks(f, sts) && Calm(l, [], high, m, slice) ==> Calm(l, lefts, q.highpr, m, q.sliceCnt)
    {
      CountMore(turns, k);
      ghost var before, h, c := q.info[..], q.highpr, q.sliceCnt;
      StillRuns(f, q, sts, k, m, Ticks(l, lefts));
      var r := Turn(q, m, sts[k], turns[k], Ticks(l, lefts));
      StillAlone(f, before, sts, k, m, r, h);
      AmongTwice(f, before, q.info[..]);
      StillAsleep(f, before, sts, k, q.info[..]);
      if Alone(f, sts, m) {
        LoneStep(l, slice, lefts, c, m, r, turns[k], q.sliceCnt);
      }
      if NobodyBlocks(f, sts) && Calm(l, [], high, m, slice) {
        CalmStep(l, lefts, h, m, c, r, turns[k], q.highpr, q.sliceCnt);
      }
      AnswerRuns(f, before, sts[k], r);
      MineMore(answers, turns, m, k, r);
      answers := answers + [r];
      if turns[k] && r == m {
        assert (lefts + [c])[..|lefts|] == lefts;
        lefts := lefts + [c];
      }
    }
    assert turns[..|sts|] == turns;
    CalmCuts(l, lefts, q.highpr, m, q.sliceCnt);
    TicksAtLevels(l, lefts);
  }

  /** The lengths of the stays at the first two levels, and the time at the last. */
  lemma TicksAtLevels(l: Life, lefts: seq<nat>)
    ensures l.level == 2 ==> Ticks(l, lefts).level == 2
    ensures l == Life(2, 0, 0, true) && Cuts(l, lefts) == 0 ==> Ticks(l, lefts).exec == |lefts| % 1000
    ensures l == Life(0, 0, 0, true) && |lefts| <= 5 ==> Ticks(l, lefts).level == if |lefts| < 5 then 0 else 1
    ensures l == Life(1, 0, 0, true) && |lefts| <= 11 ==>
      && (|lefts| < 10 ==> Ticks(l, lefts).level == 1)
      && (|lefts| == 10 ==> (Ticks(l, lefts).level == 2 <==> Cuts(l, lefts) % 2 == 0))
      && (|lefts| == 11 ==> Ticks(l, lefts).level == 2)
  {
    if l == Life(0, 0, 0, true) && |lefts| <= 5 {
      FiveTicks(lefts);
    }
    if l == Life(1, 0, 0, true) && |lefts| < 10 {
      AtLevelOne(lefts);
    }
    if l == Life(1, 0, 0, true) && |lefts| == 10 {
      var more := lefts + [0];
      assert more[..10] == lefts;
      TenTicks(more);
    }
    if l == Life(1, 0, 0, true) && |lefts| == 11 {
      TenTicks(lefts);
    }
    if l.level == 2 {
      StaysLast(l, lefts);
    }
    if l == Life(2, 0, 0, true) && Cuts(l, lefts) == 0 {
      FourByFour(lefts);
    }
  }

  /** `ticks` of a slice of node `m`, that was `was` in the list `o` when the slice started. */
  ghost predicate SliceSpent(q: Queue, m: nat, was: Info, o: seq<nat>, ticks: nat)
    reads q, q.info
  {
    var slice, limit := if was.level == 0 then 1 else if was.level == 1 then 2 else 4,
                        if was.level == 0 then 5 else if was.level == 1 then 10 else 1000;
    && m < NPROC < q.info.Length
    && (ticks < slice ==>
          q.highpr == m && q.sliceCnt == ticks && q.order == o && q.info[m] == was.(exec := was.exec + ticks))
    && (ticks == slice ==> q.highpr == NIL && q.sliceCnt == 0)
    && (ticks == slice && was.exec + slice < limit ==>
          q.info[m] == was.(exec := was.exec + slice) && MovedTo(o, q.order, m, Header(was.level + 1)))
    && (ticks == slice && was.exec + slice >= limit && was.level < 2 ==>
          q.info[m] == was.(level := was.level + 1, exec := 0) && MovedTo(o, q.order, m, Header(was.level + 2)))
    && (ticks == slice && was.exec + slice >= limit && was.level == 2 ==>
          q.info[m] == was.(exec := 0) && q.order == o)
  }

  /**
   * A slice that starts with the counter at 0, of a process that can run at each choice: it is the answer for exactly
   * one, two or four ticks of the class, by its level. Then it goes to the back of its level; or, with 5, 10 or 1000
   * ticks spent there, of the next one; at the last level it then stays where it is in the list.
   */
  method WholeSlice(q: Queue, m: nat, sts: seq<seq<Sched.State>>, turns: seq<bool>) returns (answers: seq<nat>)
    requires q.Valid() && m < NPROC && q.highpr == m && q.sliceCnt == 0 && |turns| == |sts|
    requires NeverBlocks(q.info[..], sts, m)
    requires forall k :: 0 <= k < |turns| ==>
      Count(turns[..k]) < if q.info[m].level == 0 then 1 else if q.info[m].level == 1 then 2 else 4
    modifies q, q.next, q.prev, q.info
    ensures q.Valid() && |answers| == |sts| && forall k :: 0 <= k < |sts| ==> answers[k] == m
    ensures SliceSpent(q, m, old(q.info[m]), old(q.order), Count(turns))
  {
    hide Sorted, Members, Queue.Chained, MovedTo, Charge, Count;
    ghost var f, o, was := q.info[..], q.order, q.info[m];
    ghost var slice := if was.level == 0 then 1 else if was.level == 1 then 2 else 4;
    answers := [];
    NothingYet(turns, m);
    for k := 0 to |sts|
      invariant q.Valid() && |answers| == k && forall j :: 0 <= j < k ==> answers[j] == m
      invariant Count(turns[..k]) <= slice
      invariant SliceSpent(q, m, was, o, Count(turns[..k]))
      invariant Count(turns[..k]) < slice ==> q.info[..] == f[m := q.info[m]]
    {
      CountMore(turns, k);
      var r := q.Choose(sts[k]);
      answers := answers + [r];
      if turns[k] {
        q.Tick(r);
      }
    }
    assert turns[..|sts|] == turns;
  }

  /** The states in which process `p` alone can run and the others sleep. */
  function Only(p: nat): (st: seq<Sched.State>)
    ensures |st| == NPROC
  {
    seq(NPROC, i => if i == p then Sched.Runnable else Sched.Sleeping)
  }

  lemma {:induction false} AllTurns(n: nat)
    ensures Count(seq(n, _ => true)) == n
  {
    if n > 0 {
      assert seq(n, _ => true)[..n - 1] == seq(n - 1, _ => true);
      AllTurns(n - 1);
    }
  }

  /** `n` choices in which process `p` alone can run, each of which picks the class. */
  method Solo(q: Queue, m: nat, n: nat, ghost l: Life) returns (ghost lefts: seq<nat>)
    requires q.Valid() && Shows(q, m, l)
    requires forall x: nat :: x < NPROC && x != m && q.info[x].used ==> q.info[x].self != q.info[m].self
    modifies q, q.next, q.prev, q.info
    ensures q.Valid() && Shows(q, m, Ticks(l, lefts)) && |lefts| == n && q.info[m].self == old(q.info[m]).self
    ensures Lone(l, old(q.sliceCnt), lefts, q.sliceCnt)
    ensures forall x: nat :: x < NPROC && x != m && old(q.info[x]).used ==> q.info[x] == old(q.info[x])
    ensures Among(old(q.info[..]), q.info[..])
    ensures l == Life(1, 0, 0, true) && n == 10 ==> (q.info[m].level == 2 <==> Cuts(l, lefts) % 2 == 0)
  {
    hide Sorted, Queue.Chained, Lone;
    var p := q.info[m].self;
    var sts := seq(n, _ => Only(p));
    AllTurns(n);
    assert forall x: nat :: x < NPROC && x != m && q.info[x].used ==> SleepsOn(q.info[..], sts, x);
    var answers;
    answers, lefts := Live(q, m, sts, seq(n, _ => true), l);
  }

  /** The only nodes are `a`, of process 0, and `b`, of process 1. */
  ghost predicate Pair(info: seq<Info>, a: nat, b: nat) {
    && |info| == NODES && a < NPROC && b < NPROC && a != b && info[a].used && info[b].used && info[a].self == 0
      && info[b].self == 1
    && forall x: nat :: x < NPROC && info[x].used ==> x == a || x == b
  }

  /** Two processes join the class. */
  method TwoJoin() returns (q: Queue, a: nat, b: nat, ghost blank: seq<Info>)
    ensures fresh(q) && fresh(q.next) && fresh(q.prev) && fresh(q.info)
    ensures q.Valid() && q.highpr == NIL && q.sliceCnt == 0 && Pair(q.info[..], a, b)
    ensures q.info[a].level == q.info[b].level == q.info[a].exec == q.info[b].exec == 0
    ensures q.order == [Header(0), b, a, Header(1), Header(2), Header(3)]
    ensures |blank| == NODES && forall x: nat :: x < NPROC ==> !blank[x].used
    ensures q.info[..] == blank[a := Info(0, true, 0, 0)][b := Info(1, true, 0, 0)]
  {
    hide Sorted, Queue.Chained, Members;
    q := new Queue();
    blank := q.info[..];
    assert !q.info[0].used && !q.info[1].used;
    a := q.Enter(0);
    assert !q.info[if a == 0 then 1 else 0].used;
    b := q.Enter(1);
  }

  /**
   * Two processes: each runs through level 0, then the second blocks half-way through its first slice at level 1.
   * The first has then had its allotment of ten ticks at level 1 and is still there.
   */
  method EleventhTick() returns (q: Queue, a: nat, ghost lefts: seq<nat>)
    ensures fresh(q) && q.Valid() && a < NPROC && q.info[a].used
    ensures |lefts| == 10 && Shows(q, a, Ticks(Life(1, 0, 0, true), lefts)) && q.info[a].level == 1
  {
    hide Sorted, Queue.Chained, Members, Ticks, Cuts, Charge;
    var b;
    ghost var blank;
    q, a, b, blank := TwoJoin();
    ghost var l0, l1 := Life(0, 0, 0, true), Life(1, 0, 0, true);
    var ls := Solo(q, a, 5, l0);
    FiveTicks(ls);
    ls := Solo(q, b, 5, l0);
    FiveTicks(ls);
    ls := Solo(q, b, 1, l1);
    HalfSlice(ls);
    lefts := Solo(q, a, 10, l1);
    AtTenTicks(lefts);
  }

  lemma AtTenTicks(lefts: seq<nat>)
    requires |lefts| == 10 && Cuts(Life(1, 0, 0, true), lefts) == 1
    ensures Ticks(Life(1, 0, 0, true), lefts).level == 1
  {
    assert (lefts + [0])[..10] == lefts;
    TenTicks(lefts + [0]);
  }

  /** The first tick of a slice that is not cut. */
  lemma HalfSlice(lefts: seq<nat>)
    requires |lefts| == 1 && Cuts(Life(1, 0, 0, true), lefts) == 0
    ensures Ticks(Life(1, 0, 0, true), lefts) == Life(1, 1, 1, false)
  {
    assert lefts[..0] == [];
  }

  lemma LifeStarts(l: Life, slice: nat, high: nat, m: nat, f: seq<Info>)
    requires |f| == NODES
    ensures Lone(l, slice, [], slice) && Among(f, f) && forall sts :: Undisturbed(f, sts, f)
  {
  }

  lemma StillRuns(f: seq<Info>, q: Queue, sts: seq<seq<Sched.State>>, k: nat, m: nat, l: Life)
    requires NeverBlocks(f, sts, m) && k < |sts| && q.info.Length == NODES && Among(f, q.info[..]) && Shows(q, m, l)
    ensures Runs(q.info[..], sts[k], m)
  {
  }

  lemma StillAlone(f: seq<Info>, info: seq<Info>, sts: seq<seq<Sched.State>>, k: nat, m: nat, r: nat, h: nat)
    requires k < |sts| && Among(f, info) && r < NPROC && info[r].used && Runs(info, sts[k], r)
    requires h == NIL || (h < NPROC && info[h].used)
    ensures Alone(f, sts, m) ==> r == m
    ensures NobodyBlocks(f, sts) && h != NIL ==> Runs(info, sts[k], h)
  {
  }

  lemma StillAsleep(f: seq<Info>, info: seq<Info>, sts: seq<seq<Sched.State>>, k: nat, info': seq<Info>)
    requires k < |sts| && Undisturbed(f, sts, info) && Rested(info, sts[k], info')
    ensures Undisturbed(f, sts, info')
  {
  }

  lemma AmongTwice(f: seq<Info>, info: seq<Info>, info': seq<Info>)
    requires Among(f, info) && Among(info, info')
    ensures Among(f, info')
  {
  }

  lemma LoneStep(l: Life, slice: nat, lefts: seq<nat>, c: nat, m: nat, r: nat, turn: bool, c': nat)
    requires Lone(l, slice, lefts, c) && r == m
    requires !turn ==> c' == c
    requires turn && After(Ticks(l, lefts), c).starting ==> c' == 0
    ensures Lone(l, slice, if turn then lefts + [c] else lefts, c')
  {
    assert (lefts + [c])[..|lefts|] == lefts;
  }

  lemma CalmStep(l: Life, lefts: seq<nat>, h: nat, m: nat, c: nat, r: nat, turn: bool, h': nat, c': nat)
    requires Calm(l, lefts, h, m, c) && m < NPROC && r < NPROC && (h != NIL ==> r == h)
    requires !turn ==> h' == r && c' == c
    requires turn ==> h' == r || (h' == NIL && c' == 0)
    requires turn && r == m && After(Ticks(l, lefts), c).starting ==> h' == NIL
    ensures Calm(l, if turn && r == m then lefts + [c] else lefts, h', m, c')
  {
    assert (lefts + [c])[..|lefts|] == lefts;
  }

  lemma CalmCuts(l: Life, lefts: seq<nat>, high: nat, m: nat, slice: nat)
    ensures Calm(l, lefts, high, m, slice) ==> Cuts(l, lefts) == 0
  {
  }
}
