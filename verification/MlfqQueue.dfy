/** proc.c: the multi-level feedback queue, one doubly linked list cut into levels by four header nodes. */
module MlfqQueue {
  import opened Collections
  import opened Ring
  import Sched

  const NPROC: nat := Sched.NPROC
  const NODES: nat := NPROC + 4
  const NIL: nat := NODES          // the null pointer
  const LEVELS: nat := 3

  /** A node's contents: its process, whether it is in use, its level and the time it ran at that level. */
  datatype Info = Info(self: nat, used: bool, level: nat, exec: nat)

  function Header(k: nat): nat {
    NPROC + k
  }

  /** Header k and the nodes of level k sort as 2k and 2k + 1. */
  function Key(info: seq<Info>, x: nat): nat
    requires |info| == NODES && x < NODES
  {
    if x >= NPROC then 2 * (x - NPROC) else 2 * info[x].level + 1
  }

  /** The list is sorted by key: every node of level k lies between headers k and k + 1. */
  ghost predicate Sorted(info: seq<Info>, order: seq<nat>) {
    && |info| == NODES && Distinct(order)
    && (forall i :: 0 <= i < |order| ==> order[i] < NODES)
    && forall i, j :: 0 <= i < j < |order| ==> Key(info, order[i]) <= Key(info, order[j])
  }

  /** The list holds the headers and the nodes in use. */
  ghost predicate Members(info: seq<Info>, order: seq<nat>) {
    && |info| == NODES
    && (forall x :: NPROC <= x < NODES ==> x in order)
    && (forall x: nat :: x < NPROC ==> (x in order <==> info[x].used))
    && (forall x: nat :: x < NPROC && info[x].used ==> info[x].level < LEVELS && info[x].self < NPROC)
  }

  /** What being sorted means for a node and the headers. */
  lemma BetweenHeaders(info: seq<Info>, order: seq<nat>, i: nat, k: nat, j: nat)
    requires Sorted(info, order) && Members(info, order) && i < |order| && j < |order|
    requires order[i] < NPROC && order[j] == Header(k) && k < 4
    ensures k <= info[order[i]].level <==> j < i
  {
  }

  /** The first header comes first and the last comes last. */
  lemma HeadersAtEnds(info: seq<Info>, order: seq<nat>)
    requires Sorted(info, order) && Members(info, order)
    ensures |order| >= 4 && order[0] == Header(0) && order[|order| - 1] == Header(3)
  {
    assert Header(0) in order && Header(1) in order && Header(2) in order && Header(3) in order;
    var a :| 0 <= a < |order| && order[a] == Header(0);
    var b :| 0 <= b < |order| && order[b] == Header(1);
    var c :| 0 <= c < |order| && order[c] == Header(2);
    var d :| 0 <= d < |order| && order[d] == Header(3);
    assert a < b < c < d;
    LastKey(info, order, |order| - 1);
  }

  lemma LastKey(info: seq<Info>, order: seq<nat>, i: nat)
    requires Sorted(info, order) && Members(info, order) && i < |order|
    ensures order[i] == Header(3) || Key(info, order[i]) < 6
  {
    assert order[i] in order;
  }

  lemma SortedWithout(info: seq<Info>, order: seq<nat>, k: nat)
    requires Sorted(info, order) && k < |order|
    ensures Sorted(info, Without(order, k)) && forall x :: x in Without(order, k) <==> x in order && x != order[k]
  {
    WithoutMembers(order, k);
  }

  lemma SortedWith(info: seq<Info>, order: seq<nat>, k: nat, m: nat)
    requires Sorted(info, order) && k <= |order| && m < NODES && m !in order
    requires k > 0 ==> Key(info, order[k - 1]) <= Key(info, m)
    requires k < |order| ==> Key(info, m) <= Key(info, order[k])
    ensures Sorted(info, With(order, k, m)) && forall x :: x in With(order, k, m) <==> x in order || x == m
  {
    WithMembers(order, k, m);
    var r := With(order, k, m);
    forall i, j | 0 <= i < j < |r|
      ensures Key(info, r[i]) <= Key(info, r[j])
    {
      assert i < k && k > 0 ==> Key(info, order[i]) <= Key(info, order[k - 1]);
      assert j > k && k < |order| ==> Key(info, order[k]) <= Key(info, order[j - 1]);
    }
  }

  /** Only header k has the key 2k, so what is before it has a smaller one. */
  lemma BeforeHeader(info: seq<Info>, order: seq<nat>, j: nat, k: nat)
    requires Sorted(info, order) && 0 < j < |order| && k < 4 && order[j] == Header(k)
    ensures Key(info, order[j - 1]) < 2 * k
  {
    assert order[j - 1] != order[j];
  }

  /** The list with `m` taken out and put back just before `t`. */
  ghost predicate MovedTo(order: seq<nat>, order': seq<nat>, m: nat, t: nat) {
    exists k: nat, j: nat ::
      && k < |order| && order[k] == m && j < |order| - 1
      && Without(order, k)[j] == t && order' == With(Without(order, k), j, m)
  }

  lemma PlaceOf(info: seq<Info>, order: seq<nat>, m: nat) returns (k: nat)
    requires Sorted(info, order) && Members(info, order) && m < NPROC && info[m].used
    ensures 0 < k < |order| - 1 && order[k] == m
  {
    HeadersAtEnds(info, order);
    k :| 0 <= k < |order| && order[k] == m;
  }

  lemma HeaderPlace(info: seq<Info>, order: seq<nat>, k: nat, h: nat) returns (j: nat)
    requires Sorted(info, order) && Members(info, order) && 0 < k < |order| - 1 && order[k] < NPROC && 0 < h < 4
    ensures 0 < j < |order| - 1 && Without(order, k)[j] == Header(h) && order[k] !in Without(order, k)
  {
    HeadersAtEnds(info, order);
    WithoutMembers(order, k);
    var r := Without(order, k);
    assert Header(h) in order && Header(h) in r;
    j :| 0 <= j < |r| && r[j] == Header(h);
    assert r[0] == order[0];
  }

  /** Moving a node to the back of the level it is given keeps the list sorted. */
  lemma MoveSorted(info: seq<Info>, info': seq<Info>, order: seq<nat>, order': seq<nat>, m: nat, h: nat)
    requires Sorted(info, order) && Members(info, order) && MovedTo(order, order', m, Header(h))
    requires m < NPROC && info[m].used && 0 < h < 4
    requires |info'| == NODES && info' == info[m := info'[m]] && info'[m].used && info'[m].self < NPROC
      && info'[m].level + 1 == h
    ensures Sorted(info', order') && Members(info', order')
  {
    hide Sorted;
    var k: nat, j: nat :| k < |order| && order[k] == m && j < |order| - 1 && Without(order, k)[j] == Header(h)
      && order' == With(Without(order, k), j, m);
    SortedWithout(info, order, k);
    HeadersAtEnds(info, order);
    var r := Without(order, k);
    assert r[0] == order[0];
    OthersSorted(info, info', r, m);
    PutSorted(info', r, m, j, h);
  }

  lemma PutSorted(info: seq<Info>, order: seq<nat>, m: nat, j: nat, h: nat)
    requires Sorted(info, order) && m < NPROC && m !in order && 0 < j < |order| && 0 < h < 4
    requires order[j] == Header(h) && info[m].level + 1 == h && info[m].used
    requires (forall x :: NPROC <= x < NODES ==> x in order)
      && (forall x: nat :: x < NPROC && x != m ==> (x in order <==> info[x].used))
    requires forall x: nat :: x < NPROC && info[x].used ==> info[x].level < LEVELS && info[x].self < NPROC
    ensures Sorted(info, With(order, j, m)) && Members(info, With(order, j, m))
  {
    BeforeHeader(info, order, j, h);
    SortedWith(info, order, j, m);
  }

  lemma OthersSorted(info: seq<Info>, info': seq<Info>, order: seq<nat>, m: nat)
    requires Sorted(info, order) && m !in order && |info'| == NODES && forall x: nat :: x < NODES && x != m ==>
      info'[x] == info[x]
    ensures Sorted(info', order)
  {
    forall i | 0 <= i < |order|
      ensures Key(info', order[i]) == Key(info, order[i])
    {
      assert order[i] in order;
    }
  }

  lemma DropSorted(info: seq<Info>, order: seq<nat>, k: nat)
    requires Sorted(info, order) && Members(info, order) && k < |order| && order[k] < NPROC
    ensures var info' := info[order[k] := Info(NPROC, false, 0, 0)];
      Sorted(info', Without(order, k)) && Members(info', Without(order, k))
  {
    SortedWithout(info, order, k);
    OthersSorted(info, info[order[k] := Info(NPROC, false, 0, 0)], Without(order, k), order[k]);
  }

  /** Node `x` is a process's, and the process can run. */
  ghost predicate Runs(info: seq<Info>, st: seq<Sched.State>, x: nat) {
    |info| == NODES && |st| == NPROC && x < NPROC && info[x].self < NPROC && st[info[x].self].Runnable?
  }

  /** The walk deletes the node: its process neither can run nor sleeps. */
  ghost predicate Dead(info: seq<Info>, st: seq<Sched.State>, x: nat) {
    && |info| == NODES && |st| == NPROC && x < NPROC && info[x].self < NPROC
    && !st[info[x].self].Runnable? && !st[info[x].self].Sleeping?
  }

  ghost function Rest(info: seq<Info>, st: seq<Sched.State>, xs: seq<nat>): seq<nat> {
    if xs == [] then [] else
      var x := xs[|xs| - 1];
      Rest(info, st, xs[..|xs| - 1]) + if Dead(info, st, x) then [] else [x]
  }

  /** None of the first `j` nodes has a process that can run. */
  ghost predicate Quiet(info: seq<Info>, st: seq<Sched.State>, order: seq<nat>, j: nat) {
    j <= |order| && forall i :: 0 <= i < j ==> !Runs(info, st, order[i])
  }

  /** `m` is at place `j`, the first whose process can run; with none, `j` is the end of the list and `m` is NIL. */
  ghost predicate FirstRuns(info: seq<Info>, st: seq<Sched.State>, order: seq<nat>, j: nat, m: nat) {
    && Quiet(info, st, order, j)
    && if j < |order| then m == order[j] && Runs(info, st, m) else m == NIL
  }

  /** The dead nodes before place `j` are gone from the list and unused, and nothing else has changed. */
  ghost predicate Swept(info: seq<Info>, st: seq<Sched.State>, order: seq<nat>, j: nat, info': seq<Info>,
      order': seq<nat>) {
    && j <= |order| && |info| == |info'| == NODES
    && order' == Rest(info, st, order[..j]) + order[j..]
    && forall x: nat :: x < NODES ==>
      info'[x] == if x in order[..j] && Dead(info, st, x) then Info(NPROC, false, 0, 0) else info[x]
  }

  /** Ticks in a slice of each level, and ticks before a process leaves it. */
  function Slice(level: nat): nat {
    if level == 0 then 1 else if level == 1 then 2 else 4
  }

  function Allotment(level: nat): nat {
    if level == 0 then 5 else if level == 1 then 10 else 1000
  }

  /** A tick's effect on the slice in progress and on the process's level and time there. */
  datatype Charged = Charged(slice: nat, level: nat, exec: nat, ended: bool)

  function Charge(slice: nat, level: nat, exec: nat): Charged {
    if slice + 1 < Slice(level) then Charged(slice + 1, level, exec + 1, false)
    else if exec + 1 < Allotment(level) then Charged(0, level, exec + 1, true)
    else Charged(0, if level < 2 then level + 1 else 2, 0, true)
  }

  lemma SetExec(info: seq<Info>, order: seq<nat>, m: nat, t: nat)
    requires Sorted(info, order) && Members(info, order) && m < NPROC
    ensures Sorted(info[m := info[m].(exec := t)], order) && Members(info[m := info[m].(exec := t)], order)
  {
    var info' := info[m := info[m].(exec := t)];
    forall i | 0 <= i < |order|
      ensures Key(info', order[i]) == Key(info, order[i])
    {
    }
  }

  /** A node outside the list points nowhere. */
  ghost predicate Loose(next: seq<nat>, prev: seq<nat>, order: seq<nat>) {
    |next| == |prev| == NODES && forall x: nat :: x < NODES && x !in order ==> next[x] == prev[x] == NIL
  }

  class Queue {
    const next: array<nat>
    const prev: array<nat>
    const info: array<Info>
    var highpr: nat       // the node whose slice is in progress, or NIL
    var sliceCnt: nat
    ghost var order: seq<nat>

    ghost predicate Chained()
      reads this, next, prev
    {
      && next != prev && next.Length == prev.Length == NODES
      && IsRing(next[..] + [Header(0)], prev[..] + [Header(3)], NIL, order)
      && |order| >= 2 && order[0] == Header(0) && order[|order| - 1] == Header(3)
      && Loose(next[..], prev[..], order)
    }

    ghost predicate Listed()
      reads this, next, prev, info
    {
      info.Length == NODES && Chained() && Sorted(info[..], order) && Members(info[..], order)
    }

    ghost predicate Valid()
      reads this, next, prev, info
    {
      Listed() && (highpr == NIL || (highpr < NPROC && info[highpr].used)) && sliceCnt < 4
    }

    /** initmlfq: the headers alone. */
    constructor ()
      ensures Valid() && fresh(next) && fresh(prev) && fresh(info) && highpr == NIL && sliceCnt == 0
      ensures order == [Header(0), Header(1), Header(2), Header(3)] && forall x: nat :: x < NPROC ==> !info[x].used
    {
      hide IsRing, Sorted, Members;
      next := new nat[NODES](i => if NPROC <= i < NPROC + 3 then i + 1 else NIL);
      prev := new nat[NODES](i => if i > NPROC then i - 1 else NIL);
      info := new Info[NODES](_ => Info(NPROC, false, 0, 0));
      highpr, sliceCnt, order := NIL, 0, [Header(0), Header(1), Header(2), Header(3)];
      new;
      FreshRing(next[..] + [Header(0)], prev[..] + [Header(3)]);
      FreshQueue(info[..]);
    }

    /** remove; a node that is not in the list stays out. */
    method Remove(m: nat, ghost k: nat)
      requires Chained() && if m in order then 0 < k < |order| - 1 && order[k] == m else m < NODES
      modifies next, prev, this`order
      ensures Chained() && order == if m in old(order) then Without(old(order), k) else old(order)
      ensures m !in old(order) ==> next[..] == old(next[..]) && prev[..] == old(prev[..])
    {
      hide IsRing;
      ghost var n: seq<nat>, p: seq<nat> := next[..] + [Header(0)], prev[..] + [Header(3)];
      if m in order {
        InnerNode(n, p, order, k);
        Unlinked(n, p, NIL, order, k);
        LooseWithout(order, k);
      }
      var a, b := prev[m], next[m];
      if a != NIL {
        next[a] := b;
      }
      if b != NIL {
        prev[b] := a;
      }
      if m in order {
        order := Without(order, k);
        n, p := n[a := b], p[b := a];
        assert next[..] + [Header(0)] == n && prev[..] + [Header(3)] == p;
        Forgotten(n, p, order, m);
      }
      next[m] := NIL;
      prev[m] := NIL;
      assert next[..] + [Header(0)] == n[m := NIL] && prev[..] + [Header(3)] == p[m := NIL];
    }

    /** insertBefore */
    method InsertBefore(target: nat, mover: nat, ghost k: nat)
      requires Chained() && 0 < k < |order| && order[k] == target && mover < NODES && mover !in order
      modifies next, prev, this`order
      ensures Chained() && order == With(old(order), k, mover)
    {
      hide IsRing;
      ghost var n: seq<nat>, p: seq<nat> := next[..] + [Header(0)], prev[..] + [Header(3)];
      InnerLink(n, p, order, k);
      Linked(n, p, NIL, order, k, mover);
      var a := prev[target];
      next[mover] := target;
      if a != NIL {
        next[a] := mover;
      }
      prev[mover] := a;
      prev[target] := mover;
      order := With(order, k, mover);
      n, p := n[mover := target], p[mover := a];
      assert next[..] + [Header(0)] == n[a := mover] && prev[..] + [Header(3)] == p[target := mover];
    }

    /** insertafter */
    method InsertAfter(target: nat, mover: nat, ghost k: nat)
      requires Chained() && k + 1 < |order| && order[k] == target && mover < NODES && mover !in order
      modifies next, prev, this`order
      ensures Chained() && order == With(old(order), k + 1, mover)
    {
      hide IsRing;
      ghost var n: seq<nat>, p: seq<nat> := next[..] + [Header(0)], prev[..] + [Header(3)];
      InnerLink(n, p, order, k + 1);
      OnwardLink(n, p, order, k);
      Linked(n, p, NIL, order, k + 1, mover);
      var a := next[target];
      prev[mover] := target;
      if a != NIL {
        prev[a] := mover;
      }
      next[mover] := a;
      next[target] := mover;
      order := With(order, k + 1, mover);
      n, p := n[mover := a], p[mover := target];
      assert next[..] + [Header(0)] == n[target := mover] && prev[..] + [Header(3)] == p[a := mover];
    }

    /** allocmlfqnode: the first node not in use, or one past the array if there is none. */
    method Alloc() returns (m: nat)
      requires Listed()
      ensures m == NODES <==> forall x: nat :: x < NPROC ==> info[x].used
      ensures m != NODES ==> m < NPROC && !info[m].used && forall x: nat :: x < m ==> info[x].used
    {
      m := 0;
      while m < NODES && (m >= NPROC || info[m].used)  // a header's state is -1, not 0
        invariant m <= NODES && forall x: nat :: x < m && x < NPROC ==> info[x].used
      {
        m := m + 1;
      }
    }

    /**
     * run_MLFQ for a process without other threads: a fresh node at the front of level 0. With every node in use
     * the source writes past the array; the queue is then not touched here.
     */
    method Enter(p: nat) returns (m: nat)
      requires Valid() && p < NPROC
      modifies next, prev, info, this`order
      ensures Valid()
      ensures m == NODES <==> forall x: nat :: x < NPROC ==> old(info[x]).used
      ensures m == NODES ==> info[..] == old(info[..]) && order == old(order)
      ensures m != NODES ==>
        && m < NPROC && !old(info[m]).used && info[..] == old(info[..])[m := Info(p, true, 0, 0)]
        && order == With(old(order), 1, m)
    {
      hide Sorted, IsRing;
      m := Alloc();
      if m == NODES {
        return;
      }
      FrontSorted(info[..], order, m, Info(p, true, 0, 0));
      info[m] := Info(p, true, 0, 0);
      assert info[..] == old(info[..])[m := Info(p, true, 0, 0)];
      InsertAfter(Header(0), m, 0);
    }

    /** remove, then insertBefore header `h`. */
    method MoveBefore(m: nat, h: nat)
      requires Listed() && m < NPROC && info[m].used && 0 < h < 4
      modifies next, prev, this`order
      ensures Chained() && MovedTo(old(order), order, m, Header(h))
    {
      hide Sorted, Members, IsRing;
      ghost var k := PlaceOf(info[..], order, m);
      ghost var j := HeaderPlace(info[..], order, k, h);
      Remove(m, k);
      InsertBefore(Header(h), m, j);
    }

    /** The node goes to the back of its level. */
    method Requeue(m: nat)
      requires Listed() && m < NPROC && info[m].used
      modifies next, prev, this`order
      ensures Listed() && MovedTo(old(order), order, m, Header(info[m].level + 1))
    {
      hide Sorted, IsRing, MovedTo, Queue.Chained;
      assert info[m].level < LEVELS;
      ghost var was := order;
      MoveBefore(m, info[m].level + 1);
      MoveSorted(info[..], info[..], was, order, m, info[m].level + 1);
    }

    /** lowerlevel: to the back of the next level, except from the last. */
    method LowerLevel(m: nat)
      requires Listed() && m < NPROC && info[m].used
      modifies next, prev, info, this`order
      ensures Listed()
      ensures old(info[m]).level == 2 ==> order == old(order) && info[..] == old(info[..])
      ensures old(info[m]).level < 2 ==>
        && info[..] == old(info[..])[m := old(info[m]).(level := old(info[m]).level + 1)]
        && MovedTo(old(order), order, m, Header(info[m].level + 1))
    {
      hide Sorted, IsRing, MovedTo, Queue.Chained;
      if info[m].level == 2 {
        return;
      }
      assert info[m].level < LEVELS;
      ghost var was := order;
      MoveBefore(m, info[m].level + 2);
      info[m] := info[m].(level := info[m].level + 1);
      MoveSorted(old(info[..]), info[..], was, order, m, info[m].level + 1);
    }

    /** delete; of a node that the walk has deleted already, nothing is left to do. */
    method Delete(m: nat)
      requires Listed() && m < NPROC
      modifies next, prev, info, this`order
      ensures Listed() && info[..] == old(info[..])[m := Info(NPROC, false, 0, 0)]
      ensures old(info[m]).used ==>
        exists k :: 0 <= k < |old(order)| && old(order)[k] == m && order == Without(old(order), k)
      ensures !old(info[m]).used ==> order == old(order)
    {
      hide Sorted, IsRing, Queue.Chained;
      ghost var k := 0;
      if info[m].used {
        k := PlaceOf(info[..], order, m);
        DropSorted(info[..], order, k);
      } else {
        OthersSorted(info[..], info[..][m := Info(NPROC, false, 0, 0)], order, m);
      }
      Remove(m, k);
      info[m] := Info(NPROC, false, 0, 0);
      assert info[..] == old(info[..])[m := Info(NPROC, false, 0, 0)];
    }

    /** One step of the walk from the node at place `j` of the first list `o`: on to the next, or the pick. */
    method Visit(m: nat, st: seq<Sched.State>, ghost f: seq<Info>, ghost o: seq<nat>, ghost j: nat)
        returns (n: nat, found: bool)
      requires Listed() && |st| == NPROC && Sorted(f, o) && Members(f, o)
      requires j < |o| && m == o[j] && Swept(f, st, o, j, info[..], order) && Quiet(f, st, o, j)
      modifies next, prev, info, this`order
      ensures Listed()
      ensures found ==> n == m < NPROC && info[m].used && Runs(f, st, m) && Swept(f, st, o, j, info[..], order)
      ensures !found ==>
        n == (if j + 1 < |o| then o[j + 1] else NIL) && Swept(f, st, o, j + 1, info[..], order)
        && Quiet(f, st, o, j + 1)
    {
      hide Sorted, IsRing, Members, Rest, Swept, Distinct, Quiet;
      WalkPlace(f, st, o, j, info[..], order, next[..] + [Header(0)], prev[..] + [Header(3)]);
      n, found := next[m], false;
      if m >= NPROC || !info[m].used {
        SweepOn(f, st, o, j, info[..], order);
      } else if !st[info[m].self].Runnable? && !st[info[m].self].Sleeping? {
        ghost var x, y := info[..], order;
        Delete(m);
        SweepOut(f, st, o, j, x, y, info[..], order);
      } else if st[info[m].self].Runnable? {
        n, found := m, true;
      } else {
        SweepOn(f, st, o, j, info[..], order);
      }
    }

    /** The loop of choosebymlfq. */
    method Walk(st: seq<Sched.State>) returns (m: nat)
      requires Listed() && |st| == NPROC
      modifies next, prev, info, this`order
      ensures Listed() && (m != NIL ==> m < NPROC && info[m].used)
      ensures exists j: nat ::
        FirstRuns(old(info[..]), st, old(order), j, m) && Swept(old(info[..]), st, old(order), j, info[..], order)
    {
      hide Sorted, Queue.Chained, Members, Rest, Swept, Quiet, Runs;
      ghost var o, f := order, info[..];
      ghost var j := 0;
      m := Header(0);
      WalkStart(f, st, o);
      while m != NIL
        invariant Listed() && 0 <= j <= |o| && m == (if j < |o| then o[j] else NIL)
        invariant Quiet(f, st, o, j) && Swept(f, st, o, j, info[..], order)
        decreases |o| - j
      {
        var found;
        m, found := Visit(m, st, f, o, j);
        if found {
          assert FirstRuns(f, st, o, j, m);
          return;
        }
        j := j + 1;
      }
      assert FirstRuns(f, st, o, j, m);
    }

    /**
     * choosebymlfq, whose answer updatevals keeps: the node whose slice is in progress while its process can
     * run, and otherwise the first in the list whose process can. On the way there the nodes of processes
     * that neither run nor sleep are deleted.
     */
    method Choose(st: seq<Sched.State>) returns (m: nat)
      requires Valid() && |st| == NPROC
      modifies next, prev, info, this
      ensures Valid() && highpr == m && sliceCnt == old(sliceCnt)
      ensures old(highpr) != NIL && Runs(old(info[..]), st, old(highpr)) ==>
        m == old(highpr) && order == old(order) && info[..] == old(info[..])
      ensures old(highpr) == NIL || !Runs(old(info[..]), st, old(highpr)) ==>
        exists j: nat :: FirstRuns(old(info[..]), st, old(order), j, m)
          && Swept(old(info[..]), st, old(order), j, info[..], order)
    {
      hide Sorted, IsRing, Swept, FirstRuns;
      if highpr != NIL && st[info[highpr].self].Runnable? {
        return highpr;
      }
      m := Walk(st);
      highpr := m;
    }

    /**
     * The scheduler's accounting for the chosen process: a tick of its slice and of its time at the level. At
     * the end of the slice it goes to the back of its level, or of the next one once its time there is up.
     */
    method Tick(m: nat)
      requires Valid() && m < NPROC && highpr == m
      modifies next, prev, info, this
      ensures Valid()
      ensures var c := Charge(old(sliceCnt), old(info[m]).level, old(info[m]).exec);
        && sliceCnt == c.slice && (highpr == if c.ended then NIL else m)
        && info[..] == old(info[..])[m := old(info[m]).(level := c.level, exec := c.exec)]
        && (!c.ended ==> order == old(order))
        && (c.ended ==>
          MovedTo(old(order), order, m, Header(c.level + 1))
          || (order == old(order) && old(info[m]).level == c.level == 2 && c.exec == 0))
      ensures var level, exec := old(info[m]).level, old(info[m]).exec + 1;
        var slice, limit := if level == 0 then 1 else if level == 1 then 2 else 4,
                            if level == 0 then 5 else if level == 1 then 10 else 1000;
        && (old(sliceCnt) + 1 < slice ==>
              && sliceCnt == old(sliceCnt) + 1 && highpr == m && order == old(order)
              && info[m] == old(info[m]).(exec := exec))
        && (old(sliceCnt) + 1 >= slice ==> sliceCnt == 0 && highpr == NIL)
        && (old(sliceCnt) + 1 >= slice && exec < limit ==>
              info[m] == old(info[m]).(exec := exec) && MovedTo(old(order), order, m, Header(level + 1)))
        && (old(sliceCnt) + 1 >= slice && exec >= limit && level < 2 ==>
              && info[m] == old(info[m]).(level := level + 1, exec := 0)
              && MovedTo(old(order), order, m, Header(level + 2)))
        && (old(sliceCnt) + 1 >= slice && exec >= limit && level == 2 ==>
              info[m] == old(info[m]).(exec := 0) && order == old(order))
    {
      hide Sorted, MovedTo, IsRing;
      sliceCnt := sliceCnt + 1;
      SetExec(info[..], order, m, info[m].exec + 1);
      info[m] := info[m].(exec := info[m].exec + 1);
      assert info[..] == old(info[..])[m := old(info[m]).(exec := old(info[m]).exec + 1)];
      if sliceCnt >= Slice(info[m].level) {
        if info[m].exec >= Allotment(info[m].level) {
          LowerLevel(m);
          SetExec(info[..], order, m, 0);
          info[m] := info[m].(exec := 0);
          assert info[..] == old(info[..])[m := old(info[m]).(level := info[m].level, exec := 0)];
        } else {
          Requeue(m);
        }
        sliceCnt := 0;
        highpr := NIL;
      }
    }
  }

  lemma LooseWithout(order: seq<nat>, k: nat)
    requires k < |order|
    ensures forall x: nat :: x !in Without(order, k) ==> x !in order || x == order[k]
  {
    assert forall i :: 0 <= i < |order| && i != k ==> order[i] in Without(order, k);
  }

  lemma WalkStart(info: seq<Info>, st: seq<Sched.State>, order: seq<nat>)
    requires Sorted(info, order) && Members(info, order)
    ensures |order| > 0 && order[0] == Header(0) && Swept(info, st, order, 0, info, order) && Quiet(info, st, order, 0)
    ensures forall i :: 0 <= i < |order| ==> order[i] < NODES
  {
    HeadersAtEnds(info, order);
    assert order[..0] == [] && order[0..] == order;
  }

  /** Where the walk is in the list as it now stands. */
  lemma WalkPlace(f: seq<Info>, st: seq<Sched.State>, o: seq<nat>, j: nat, info: seq<Info>, order: seq<nat>,
      next: seq<nat>, prev: seq<nat>)
    requires Sorted(f, o) && Members(f, o) && Sorted(info, order) && Members(info, order)
    requires j < |o| && Swept(f, st, o, j, info, order) && IsRing(next, prev, NIL, order) && |next| == NODES + 1
    ensures o[j] < NODES && info[o[j]] == f[o[j]] && next[o[j]] == (if j + 1 < |o| then o[j + 1] else NIL)
    ensures (o[j] < NPROC ==> f[o[j]].used && f[o[j]].self < NPROC) && Distinct(order) && |f| == NODES
  {
    var i := |Rest(f, st, o[..j])|;
    assert order[i] == o[j] && o[j] in o;
    assert Joint(next, prev, NIL, order, i);
  }

  lemma SweepOn(f: seq<Info>, st: seq<Sched.State>, o: seq<nat>, j: nat, info: seq<Info>, order: seq<nat>)
    requires j < |o| && Swept(f, st, o, j, info, order) && !Dead(f, st, o[j])
    requires Quiet(f, st, o, j) && !Runs(f, st, o[j])
    ensures Swept(f, st, o, j + 1, info, order) && Quiet(f, st, o, j + 1)
  {
    assert o[..j + 1][..j] == o[..j];
    assert o[..j + 1] == o[..j] + [o[j]];
    assert o[j..] == [o[j]] + o[j + 1..];
  }

  lemma SweepOut(f: seq<Info>, st: seq<Sched.State>, o: seq<nat>, j: nat, info: seq<Info>, order: seq<nat>,
      info': seq<Info>, order': seq<nat>)
    requires j < |o| && Swept(f, st, o, j, info, order) && Dead(f, st, o[j]) && Distinct(order) && Quiet(f, st, o, j)
    requires info' == info[o[j] := Info(NPROC, false, 0, 0)]
    requires exists k :: 0 <= k < |order| && order[k] == o[j] && order' == Without(order, k)
    ensures Swept(f, st, o, j + 1, info', order') && Quiet(f, st, o, j + 1)
  {
    var r := Rest(f, st, o[..j]);
    assert order[|r|] == o[j];
    assert order' == Without(order, |r|);
    assert o[..j + 1][..j] == o[..j];
    assert o[..j + 1] == o[..j] + [o[j]];
    assert order' == r + o[j + 1..];
  }

  /** A node with neighbours on both sides. */
  lemma InnerNode(next: seq<nat>, prev: seq<nat>, order: seq<nat>, k: nat)
    requires IsRing(next, prev, NIL, order) && |next| == NODES + 1 && 0 < k < |order| - 1
    ensures order[k] < NODES && next[order[k]] == order[k + 1] < NODES && prev[order[k]] == order[k - 1] < NODES
    ensures order[k] != order[k + 1] && order[k] != order[k - 1]
  {
    assert Joint(next, prev, NIL, order, k);
  }

  lemma InnerLink(next: seq<nat>, prev: seq<nat>, order: seq<nat>, k: nat)
    requires IsRing(next, prev, NIL, order) && |next| == NODES + 1 && 0 < k < |order|
    ensures order[k] < NODES && prev[order[k]] == order[k - 1] < NODES
    ensures Pred(NIL, order, k) == order[k - 1] && Succ(NIL, order, k - 1) == order[k] != order[k - 1]
  {
    assert Joint(next, prev, NIL, order, k);
  }

  lemma OnwardLink(next: seq<nat>, prev: seq<nat>, order: seq<nat>, k: nat)
    requires IsRing(next, prev, NIL, order) && |next| == NODES + 1 && k + 1 < |order|
    ensures order[k] < NODES && next[order[k]] == order[k + 1] < NODES
  {
    assert Joint(next, prev, NIL, order, k);
  }

  lemma FreshRing(next: seq<nat>, prev: seq<nat>)
    requires |next| == |prev| == NODES + 1 && next[NIL] == Header(0) && prev[NIL] == Header(3)
    requires next[NPROC] == NPROC + 1 && next[NPROC + 1] == NPROC + 2 && next[NPROC + 2] == NPROC + 3
      && next[NPROC + 3] == NIL
    requires prev[NPROC] == NIL && prev[NPROC + 1] == NPROC && prev[NPROC + 2] == NPROC + 1
      && prev[NPROC + 3] == NPROC + 2
    ensures IsRing(next, prev, NIL, [Header(0), Header(1), Header(2), Header(3)])
  {
    var order := [Header(0), Header(1), Header(2), Header(3)];
    forall k: nat
      ensures Joint(next, prev, NIL, order, k)
    {
      if k < 4 {
        assert order[k] == NPROC + k;
        assert k == 0 || k == 1 || k == 2 || k == 3;
      }
    }
  }

  lemma FreshQueue(info: seq<Info>)
    requires |info| == NODES && forall x :: 0 <= x < NODES ==> info[x] == Info(NPROC, false, 0, 0)
    ensures var order := [Header(0), Header(1), Header(2), Header(3)]; Sorted(info, order) && Members(info, order)
  {
    var order := [Header(0), Header(1), Header(2), Header(3)];
    forall x | NPROC <= x < NODES
      ensures x in order
    {
      assert order[x - NPROC] == x;
    }
  }

  lemma FrontSorted(info: seq<Info>, order: seq<nat>, m: nat, x: Info)
    requires Sorted(info, order) && Members(info, order) && m < NPROC && !info[m].used && x.used && x.level == 0
      && x.self < NPROC
    ensures |order| >= 2 && Sorted(info[m := x], With(order, 1, m)) && Members(info[m := x], With(order, 1, m))
  {
    HeadersAtEnds(info, order);
    var info' := info[m := x];
    OthersSorted(info, info', order, m);
    assert order[0] != order[1];
    SortedWith(info', order, 1, m);
  }

  /** The links of a node outside the list do not matter. */
  lemma Forgotten(next: seq<nat>, prev: seq<nat>, order: seq<nat>, m: nat)
    requires IsRing(next, prev, NIL, order) && |next| == NODES + 1 && m < NODES && m !in order
    ensures IsRing(next[m := NIL], prev[m := NIL], NIL, order)
  {
    var n, p := next[m := NIL], prev[m := NIL];
    forall k: nat
      ensures Joint(n, p, NIL, order, k)
    {
      assert Joint(next, prev, NIL, order, k);
      assert k < |order| ==> order[k] in order;
    }
  }
}
