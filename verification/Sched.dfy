/** proc.c: the process table, and the scheduler's choice among fixed shares, the MLFQ class and the default class. */
module Sched {
  import opened Options
  import opened StrideSpec

  const NPROC: nat := 64
  const MLFQ_SHARE: int := 20
  const MAX_FIXED: int := 20

  datatype State = Unused | Embryo | Sleeping | Runnable | Running | Zombie
  datatype Mode = Default | Fixed | Mlfq
  datatype Proc = Proc(state: State, mode: Mode, path: real, share: int, level: int)

  /** Process `i` can run, under mode `m`. */
  predicate Ready(t: seq<Proc>, i: nat, m: Mode) {
    i < |t| && t[i].state.Runnable? && t[i].mode == m
  }

  predicate Present(t: seq<Proc>, m: Mode) {
    exists i :: 0 <= i < |t| && Ready(t, i, m)
  }

  /** The shares of the processes before `k` that can run under a fixed share. */
  function Total(t: seq<Proc>, k: nat): int
    requires k <= |t|
  {
    if k == 0 then 0 else Total(t, k - 1) + if Ready(t, k - 1, Fixed) then t[k - 1].share else 0
  }

  /** What cpu_share and the process table guarantee. */
  ghost predicate Sane(t: seq<Proc>) {
    && |t| == NPROC && Total(t, NPROC) <= MAX_FIXED
    && (forall i :: 0 <= i < NPROC && Ready(t, i, Fixed) ==> t[i].share > 0 && t[i].path >= 0.0)
    && (forall i :: 0 <= i < NPROC && Ready(t, i, Default) ==> t[i].level >= 0)
  }

  function DefaultWeight(t: seq<Proc>): int
    requires |t| == NPROC
  {
    (if Present(t, Mlfq) then 100 - MLFQ_SHARE else 100) - Total(t, NPROC)
  }

  /**
   * The clients: a process of fixed share stands for itself, NPROC is the MLFQ class and NPROC + 1 the default class.
   */
  function WeightOf(t: seq<Proc>, c: nat): real
    requires |t| == NPROC
  {
    if c < NPROC then if Ready(t, c, Fixed) then t[c].share as real else 0.0
    else if c == NPROC then if Present(t, Mlfq) then MLFQ_SHARE as real else 0.0
    else if Present(t, Default) then DefaultWeight(t) as real else 0.0
  }

  function WeightsOf(t: seq<Proc>): (w: seq<real>)
    requires |t| == NPROC
    ensures |w| == NPROC + 2
  {
    seq(NPROC + 2, c requires 0 <= c => WeightOf(t, c))
  }

  function PathOf(t: seq<Proc>, m: real, d: real, c: nat): real
    requires |t| == NPROC
  {
    if WeightOf(t, c) <= 0.0 then 0.0 else if c < NPROC then t[c].path else if c == NPROC then m else d
  }

  /** The path of every client that takes part. */
  function PathsOf(t: seq<Proc>, m: real, d: real): (p: seq<real>)
    requires |t| == NPROC
    ensures |p| == NPROC + 2
  {
    seq(NPROC + 2, c requires 0 <= c => PathOf(t, m, d, c))
  }

  function ClientOf(t: seq<Proc>, i: nat): nat
    requires i < |t|
  {
    match t[i].mode
    case Fixed => i
    case Mlfq => NPROC
    case Default => NPROC + 1
  }

  lemma {:induction false} SumParts(t: seq<Proc>, k: nat)
    requires |t| == NPROC && k <= NPROC
    ensures Sum(seq(k, c requires 0 <= c => WeightOf(t, c))) == Total(t, k) as real
  {
    if k > 0 {
      SumParts(t, k - 1);
      var w := seq(k, c requires 0 <= c => WeightOf(t, c));
      assert w == seq(k - 1, c requires 0 <= c => WeightOf(t, c)) + [WeightOf(t, k - 1)];
      SumAppend(seq(k - 1, c requires 0 <= c => WeightOf(t, c)), WeightOf(t, k - 1));
    }
  }

  lemma {:induction false} SumAppend(w: seq<real>, x: real)
    ensures Sum(w + [x]) == Sum(w) + x
  {
    if w == [] {
      assert w + [x] == [x];
    } else {
      assert (w + [x])[1..] == w[1..] + [x];
      SumAppend(w[1..], x);
    }
  }

  /** With the default class present, the weights sum to 100. */
  lemma WeightsSum(t: seq<Proc>)
    requires |t| == NPROC && Present(t, Default)
    ensures Sum(WeightsOf(t)) == 100.0
  {
    SumParts(t, NPROC);
    var w := seq(NPROC, c requires 0 <= c => WeightOf(t, c));
    SumAppend(w, WeightOf(t, NPROC));
    SumAppend(w + [WeightOf(t, NPROC)], WeightOf(t, NPROC + 1));
    assert WeightsOf(t) == w + [WeightOf(t, NPROC)] + [WeightOf(t, NPROC + 1)];
  }

  /** What choosebymlfq answers: some runnable process of the class, if there is one. */
  predicate MlfqPick(t: seq<Proc>, x: Option<nat>) {
    if x.Some? then Ready(t, x.value, Mlfq) else !Present(t, Mlfq)
  }

  /** What choosebymlfq answers in any case: a process that can run, if not of the class then of the default class. */
  predicate Answer(t: seq<Proc>, x: Option<nat>) {
    x.Some? ==> x.value < |t| && t[x.value].state.Runnable? && t[x.value].mode != Fixed
  }

  /** `x` is the first runnable process, of those before `k` with a fixed share, of the least path, or there is none. */
  ghost predicate LeastPath(t: seq<Proc>, k: nat, x: Option<nat>) {
    && (x.None? ==> forall i :: 0 <= i < k && i < |t| ==> !Ready(t, i, Fixed))
    && (x.Some? ==> x.value < k && Ready(t, x.value, Fixed) && forall i :: 0 <= i < k && Ready(t, i, Fixed) ==>
      t[x.value].path <= t[i].path && (i < x.value ==> t[x.value].path < t[i].path))
  }

  ghost predicate LeastLevel(t: seq<Proc>, k: nat, x: Option<nat>) {
    && (x.None? ==> forall i :: 0 <= i < k && i < |t| ==> !Ready(t, i, Default))
    && (x.Some? ==> x.value < k && Ready(t, x.value, Default) && forall i :: 0 <= i < k && Ready(t, i, Default) ==>
      t[x.value].level <= t[i].level && (i < x.value ==> t[x.value].level < t[i].level))
  }

  /** The tables agree on who takes part and on the fixed shares and their paths. */
  ghost predicate SameTable(t: seq<Proc>, t': seq<Proc>) {
    |t| == |t'| && forall i :: 0 <= i < |t| ==>
      && t'[i].state == t[i].state && t'[i].mode == t[i].mode && t'[i].share == t[i].share && t'[i].level == t[i].level
      && (t[i].mode.Fixed? ==> t'[i].path == t[i].path)
  }

  lemma {:induction false} SameTotals(t: seq<Proc>, t': seq<Proc>, k: nat)
    requires SameTable(t, t') && k <= |t|
    ensures Total(t', k) == Total(t, k)
    ensures forall i: nat, m :: Ready(t', i, m) <==> Ready(t, i, m)
    ensures forall m :: Present(t', m) <==> Present(t, m)
  {
    if k > 0 {
      SameTotals(t, t', k - 1);
    }
    forall m
      ensures Present(t', m) <==> Present(t, m)
    {
      if Present(t', m) {
        var i :| 0 <= i < |t'| && Ready(t', i, m);
        assert Ready(t, i, m);
      }
      if Present(t, m) {
        var i :| 0 <= i < |t| && Ready(t, i, m);
        assert Ready(t', i, m);
      }
    }
  }

  /** A class that has something to run again starts from the least path of the others. */
  ghost predicate Joined(t: seq<Proc>, f: Option<nat>, d: Option<nat>, m: real)
    requires (f.Some? ==> f.value < |t|) && (d.Some? ==> d.value < |t|)
  {
    && (f.Some? ==> m <= t[f.value].path) && (d.Some? ==> m <= t[d.value].path)
    && ((f.Some? && m == t[f.value].path) || (d.Some? && m == t[d.value].path) || (f.None? && d.None? && m == 0.0))
  }

  /**
   * Process `i` can run, and its client is the first with the least path: fixed shares first,
   * then MLFQ, then the default class.
   */
  ghost predicate Picked(t: seq<Proc>, m: real, d: real, i: nat) {
    && |t| == NPROC && i < NPROC && t[i].state.Runnable?
    && IsMin(PathsOf(t, m, d), WeightsOf(t), ClientOf(t, i)) && t[i].path == PathsOf(t, m, d)[ClientOf(t, i)]
    && forall j :: 0 <= j < ClientOf(t, i) && WeightsOf(t)[j] > 0.0 ==> t[i].path < PathsOf(t, m, d)[j]
  }

  /** The MLFQ class, just back, is level with the least of the others. */
  ghost predicate Entered(t: seq<Proc>, m: real, d: real) {
    && |t| == NPROC
    && (forall c :: 0 <= c < NPROC + 2 && WeightOf(t, c) > 0.0 ==> m <= PathOf(t, m, d, c))
    && (m == 0.0 || exists c :: 0 <= c < NPROC + 2 && c != NPROC && WeightOf(t, c) > 0.0 && PathOf(t, m, d, c) == m)
  }

  lemma LeastPicked(t: seq<Proc>, m: real, d: real, f: Option<nat>, mh: Option<nat>, dh: Option<nat>, x: Option<nat>)
    requires Sane(t) && LeastPath(t, NPROC, f) && LeastLevel(t, NPROC, dh) && MlfqPick(t, mh) && DefaultWeight(t) > 0
    requires (mh.Some? ==> t[mh.value].path == m) && (dh.Some? ==> t[dh.value].path == d)
    requires x == f || x == mh || x == dh
    requires x.None? <==> f.None? && mh.None? && dh.None?
    requires (f.Some? ==> t[x.value].path <= t[f.value].path) && (mh.Some? ==> t[x.value].path <= m)
      && (dh.Some? ==> t[x.value].path <= d)
    requires (f.Some? && x != f ==> t[x.value].path < t[f.value].path) && (mh.Some? && x == dh ==> t[x.value].path < m)
    ensures x.None? <==> forall m :: !Present(t, m)
    ensures x.Some? ==> Picked(t, m, d, x.value)
  {
    if x.Some? {
      assert Ready(t, x.value, t[x.value].mode) && Present(t, t[x.value].mode);
      var p, w := PathsOf(t, m, d), WeightsOf(t);
      var c := ClientOf(t, x.value);
      assert w[c] > 0.0 && p[c] == t[x.value].path;
      forall j | 0 <= j < NPROC + 2 && w[j] > 0.0
        ensures p[c] <= p[j] && (j < c ==> p[c] < p[j])
      {
        if j < NPROC {
          assert Ready(t, j, Fixed);
        }
      }
    } else {
      assert !Present(t, Fixed) && !Present(t, Mlfq) && !Present(t, Default);
    }
  }

  /** The choices stay good when the paths of others than fixed shares change. */
  lemma SameChoices(t: seq<Proc>, t': seq<Proc>, f: Option<nat>, mh: Option<nat>, dh: Option<nat>)
    requires SameTable(t, t') && Sane(t) && LeastPath(t, NPROC, f) && LeastLevel(t, NPROC, dh)
    ensures Sane(t') && LeastPath(t', NPROC, f) && LeastLevel(t', NPROC, dh)
    ensures (MlfqPick(t', mh) <==> MlfqPick(t, mh)) && (Answer(t', mh) <==> Answer(t, mh))
    ensures Total(t', NPROC) == Total(t, NPROC) && DefaultWeight(t') == DefaultWeight(t)
      && forall m :: Present(t', m) <==> Present(t, m)
  {
    SameTotals(t, t', NPROC);
  }

  lemma ChoiceBounds(t: seq<Proc>, f: Option<nat>, mh: Option<nat>, dh: Option<nat>)
    requires Sane(t) && LeastPath(t, NPROC, f) && LeastLevel(t, NPROC, dh) && Answer(t, mh)
    ensures f.Some? ==> f.value < NPROC && Ready(t, f.value, Fixed)
    ensures dh.Some? ==> dh.value < NPROC && Ready(t, dh.value, Default)
    ensures mh.Some? ==> mh.value < NPROC && Ready(t, mh.value, t[mh.value].mode) && t[mh.value].mode != Fixed
    ensures (f.Some? ==> t[f.value].path >= 0.0) && Total(t, NPROC) <= MAX_FIXED
  {
  }

  lemma SameLevels(t: seq<Proc>, t': seq<Proc>, dh: Option<nat>)
    requires SameTable(t, t') && LeastLevel(t', NPROC, dh) && |t| == NPROC
    ensures LeastLevel(t, NPROC, dh)
  {
    forall i | 0 <= i < NPROC && Ready(t, i, Default)
      ensures Ready(t', i, Default)
    {
    }
  }

  lemma PickMode(t: seq<Proc>, x: Option<nat>)
    requires MlfqPick(t, x)
    ensures Answer(t, x) && (x.Some? ==> x.value < |t| && t[x.value].mode == Mlfq)
  {
  }

  lemma SetPath(t: seq<Proc>, i: nat, v: real)
    requires i < |t| && t[i].mode != Fixed
    ensures SameTable(t, t[i := t[i].(path := v)])
  {
  }

  lemma SameSelf(t: seq<Proc>)
    ensures SameTable(t, t)
  {
  }

  lemma SameTwice(t: seq<Proc>, t1: seq<Proc>, t2: seq<Proc>)
    requires SameTable(t, t1) && SameTable(t1, t2)
    ensures SameTable(t, t2)
  {
  }

  lemma JoinedEntered(t: seq<Proc>, m: real, d: real, f: Option<nat>, dh: Option<nat>)
    requires Sane(t) && LeastPath(t, NPROC, f) && LeastLevel(t, NPROC, dh) && DefaultWeight(t) > 0 && Present(t, Mlfq)
    requires dh.Some? ==> t[dh.value].path == d
    requires Joined(t, f, dh, m)
    ensures Entered(t, m, d)
  {
    if f.Some? {
      assert WeightOf(t, f.value) > 0.0 && PathOf(t, m, d, f.value) == t[f.value].path;
    }
    if dh.Some? {
      assert Ready(t, dh.value, Default);
      assert WeightOf(t, NPROC + 1) > 0.0 && PathOf(t, m, d, NPROC + 1) == d;
    }
    forall c | 0 <= c < NPROC + 2 && WeightOf(t, c) > 0.0
      ensures m <= PathOf(t, m, d, c)
    {
      if c < NPROC {
        assert Ready(t, c, Fixed);
      }
    }
  }

  /** The same processes can run, under the same modes and shares. */
  ghost predicate SameRunnable(t: seq<Proc>, t': seq<Proc>) {
    |t| == |t'| && forall i :: 0 <= i < |t| ==>
      t'[i].state == t[i].state && t'[i].mode == t[i].mode && t'[i].share == t[i].share
  }

  lemma {:induction false} RunnableTotals(t: seq<Proc>, t': seq<Proc>, k: nat)
    requires SameRunnable(t, t') && k <= |t|
    ensures Total(t', k) == Total(t, k)
  {
    if k > 0 {
      RunnableTotals(t, t', k - 1);
    }
  }

  lemma RunnablePresent(t: seq<Proc>, t': seq<Proc>, m: Mode)
    requires SameRunnable(t, t')
    ensures Present(t', m) <==> Present(t, m)
  {
    if Present(t', m) {
      var i :| 0 <= i < |t'| && Ready(t', i, m);
      assert Ready(t, i, m);
    }
    if Present(t, m) {
      var i :| 0 <= i < |t| && Ready(t, i, m);
      assert Ready(t', i, m);
    }
  }

  lemma RunnableWeights(t: seq<Proc>, t': seq<Proc>)
    requires SameRunnable(t, t') && |t| == NPROC
    ensures WeightsOf(t') == WeightsOf(t) && DefaultWeight(t') == DefaultWeight(t)
    ensures forall c :: 0 <= c < NPROC + 2 ==> WeightOf(t', c) == WeightOf(t, c)
    ensures forall x :: MlfqPick(t', x) <==> MlfqPick(t, x)
  {
    RunnableTotals(t, t', NPROC);
    RunnablePresent(t, t', Mlfq);
    RunnablePresent(t, t', Default);
  }

  /** Updating values changes no path but that of a class just back. */
  lemma SamePaths(t: seq<Proc>, t': seq<Proc>, m: real, m': real, d: real)
    requires SameTable(t, t') && |t| == NPROC && (!Present(t', Mlfq) || m == m' || m == -1.0)
    ensures SameRunnable(t, t')
    ensures m != -1.0 || !Present(t', Mlfq) ==> PathsOf(t', m', d) == PathsOf(t, m, d)
    ensures forall c :: 0 <= c < NPROC + 2 && c != NPROC ==> PathsOf(t', m', d)[c] == PathsOf(t, m, d)[c]
  {
    RunnableWeights(t, t');
    forall c | 0 <= c < NPROC + 2 && (c != NPROC || m != -1.0 || !Present(t', Mlfq))
      ensures PathsOf(t', m', d)[c] == PathsOf(t, m, d)[c]
    {
      assert c < NPROC && WeightOf(t, c) > 0.0 ==> Ready(t, c, Fixed);
    }
  }

  /** The chosen process's entry after its turn. */
  function Moved(t: seq<Proc>, i: nat): seq<Proc>
    requires i < |t| && (t[i].mode.Fixed? ==> t[i].share > 0)
  {
    match t[i].mode
    case Default => t[i := t[i].(level := t[i].level + 1)]
    case Fixed => t[i := t[i].(path := t[i].path + SCALE / t[i].share as real)]
    case Mlfq => t
  }

  /** From the paths `mid`, the client of process `i` had the least and has moved by its stride; nothing else has. */
  ghost predicate Stepped(t: seq<Proc>, mid: seq<real>, t': seq<Proc>, m: real, d: real, i: nat) {
    && |t| == |t'| == NPROC && i < NPROC && t[i].state.Runnable?
    && IsMin(mid, WeightsOf(t), ClientOf(t, i)) && WeightsOf(t') == WeightsOf(t)
    && PathsOf(t', m, d) == Advance(mid, WeightsOf(t), ClientOf(t, i))
  }

  lemma PickedReady(t: seq<Proc>, m: real, d: real, i: nat)
    requires Sane(t) && Picked(t, m, d, i)
    ensures Ready(t, i, t[i].mode) && Present(t, t[i].mode) && (t[i].mode.Fixed? ==> t[i].share > 0)
  {
    assert Ready(t, i, t[i].mode);
  }

  lemma MovedSane(t: seq<Proc>, i: nat)
    requires Sane(t) && i < NPROC && Ready(t, i, t[i].mode)
    ensures Sane(Moved(t, i)) && SameRunnable(t, Moved(t, i))
  {
    RunnableTotals(t, Moved(t, i), NPROC);
    assert t[i].mode.Fixed? ==> SCALE / t[i].share as real > 0.0;
  }

  lemma ReadyFacts(s: seq<Proc>, t: seq<Proc>, i: nat, mpick: Option<nat>)
    requires Sane(t) && i < NPROC && Ready(t, i, t[i].mode) && SameTable(s, t)
    ensures Present(t, t[i].mode) && (t[i].mode.Fixed? ==> t[i].share > 0)
    ensures mpick.Some? && mpick.value < NPROC ==> s[mpick.value].mode == t[mpick.value].mode
  {
  }

  /** Whoever is chosen, only its entry changes, and the same processes can run. */
  lemma MovedOnly(s: seq<Proc>, t: seq<Proc>, i: nat)
    requires Sane(t) && SameRunnable(s, t) && i < NPROC && Ready(t, i, t[i].mode)
      && (t[i].mode.Fixed? ==> t[i].share > 0)
    ensures var t' := Moved(t, i);
      && Sane(t') && SameRunnable(s, t') && |t'| == NPROC && t'[i].state.Runnable? && t'[i].mode == t[i].mode
      && (forall n :: Present(t', n) <==> Present(t, n))
  {
    MovedSane(t, i);
    forall n
      ensures Present(Moved(t, i), n) <==> Present(t, n)
    {
      RunnablePresent(t, Moved(t, i), n);
    }
  }

  lemma MovedCounted(s: seq<Proc>, t: seq<Proc>, i: nat)
    requires SameTable(s, t) && i < |t| && (t[i].mode.Fixed? ==> t[i].share > 0)
    ensures TurnCounted(s, Moved(t, i), i) && s[i].mode == t[i].mode
  {
  }

  lemma StepEffect(s: seq<Proc>, t: seq<Proc>, m: real, d: real, i: nat)
    requires Sane(t) && SameRunnable(s, t) && Picked(t, m, d, i) && DefaultWeight(t) > 0
    requires Ready(t, i, t[i].mode) && Present(t, t[i].mode) && (t[i].mode.Fixed? ==> t[i].share > 0)
    ensures var t', mode := Moved(t, i), t[i].mode;
      && Sane(t') && SameRunnable(s, t')
      && (forall n :: Present(t', n) <==> Present(t, n))
      && Stepped(s, PathsOf(t, m, d), t', if mode.Mlfq? then m + 5.0 else m,
        if mode.Default? then d + SCALE / DefaultWeight(t) as real else d, i)
  {
    PickedReady(t, m, d, i);
    MovedSane(t, i);
    var t' := Moved(t, i);
    RunnableWeights(s, t);
    RunnableWeights(t, t');
    forall n
      ensures Present(t', n) <==> Present(t, n)
    {
      RunnablePresent(t, t', n);
    }
    MovedPaths(t, m, d, i);
  }

  lemma MovedPaths(t: seq<Proc>, m: real, d: real, i: nat)
    requires Sane(t) && Picked(t, m, d, i) && DefaultWeight(t) > 0
    ensures var mode := t[i].mode;
      PathsOf(Moved(t, i), if mode.Mlfq? then m + 5.0 else m,
        if mode.Default? then d + SCALE / DefaultWeight(t) as real else d)
      == Advance(PathsOf(t, m, d), WeightsOf(t), ClientOf(t, i))
  {
    PickedReady(t, m, d, i);
    MovedSane(t, i);
    RunnableWeights(t, Moved(t, i));
    assert Stride(20.0) == 5.0;
  }

  lemma SameRunnableSelf(t: seq<Proc>, p: seq<real>, w: seq<real>)
    ensures SameRunnable(t, t) && Run(p, w, []) && End(p, w, []) == p
  {
  }

  lemma SameRunnableTwice(t: seq<Proc>, t1: seq<Proc>, t2: seq<Proc>)
    requires SameRunnable(t, t1) && SameRunnable(t1, t2)
    ensures SameRunnable(t, t2)
  {
  }

  lemma RunnableAny(t: seq<Proc>, t': seq<Proc>)
    requires SameRunnable(t, t') && exists m :: Present(t, m)
    ensures exists m :: Present(t', m)
  {
    var m :| Present(t, m);
    RunnablePresent(t, t', m);
  }

  lemma StepFacts(t: seq<Proc>, mid: seq<real>, t': seq<Proc>, m: real, d: real, i: nat) returns (c: nat)
    requires Stepped(t, mid, t', m, d, i) && SameRunnable(t, t')
    ensures i < |t'| == NPROC && c == ClientOf(t', i) && IsMin(mid, WeightsOf(t), c)
      && PathsOf(t', m, d) == Advance(mid, WeightsOf(t), c)
  {
    c := ClientOf(t, i);
  }

  lemma WeightsPositive(t: seq<Proc>)
    requires Sane(t)
    ensures Weights(WeightsOf(t))
  {
  }

  /** A class that comes back level with the least path keeps the paths as close as the others are. */
  lemma EnteredSpread(t: seq<Proc>, m: real, d: real, s: real)
    requires |t| == NPROC && Entered(t, m, d) && s >= 0.0
    requires forall i, j ::
      && 0 <= i < NPROC + 2 && 0 <= j < NPROC + 2 && i != NPROC && j != NPROC
      && WeightOf(t, i) > 0.0 && WeightOf(t, j) > 0.0 ==>
      PathOf(t, m, d, i) - PathOf(t, m, d, j) <= s
    requires exists c :: 0 <= c < NPROC + 2 && c != NPROC && WeightOf(t, c) > 0.0 && PathOf(t, m, d, c) == m
    ensures Spread(PathsOf(t, m, d), WeightsOf(t), s)
  {
    var c :| 0 <= c < NPROC + 2 && c != NPROC && WeightOf(t, c) > 0.0 && PathOf(t, m, d, c) == m;
    var p, w := PathsOf(t, m, d), WeightsOf(t);
    forall i, j | 0 <= i < NPROC + 2 && 0 <= j < NPROC + 2 && w[i] > 0.0 && w[j] > 0.0
      ensures p[i] - p[j] <= s
    {
      assert i != NPROC ==> PathOf(t, m, d, i) - PathOf(t, m, d, c) <= s;
      assert m <= PathOf(t, m, d, j);
      assert i == NPROC ==> p[i] == m;
    }
  }

  /** Process `me` alone is running. */
  ghost predicate OneRunning(t: seq<Proc>, me: nat) {
    me < |t| && forall i :: 0 <= i < |t| ==> (t[i].state.Running? <==> i == me)
  }

  predicate Alive(p: Proc) {
    p.state.Runnable? || p.state.Sleeping? || p.state.Running?
  }

  predicate Holds(p: Proc) {
    p.mode.Fixed? && (p.state.Runnable? || p.state.Sleeping?)
  }

  /** The fixed shares that cpu_share counts: of the processes before `k` that can run or sleep. */
  function Booked(t: seq<Proc>, k: nat): int
    requires k <= |t|
  {
    if k == 0 then 0 else Booked(t, k - 1) + if Holds(t[k - 1]) then t[k - 1].share else 0
  }

  /** Those, and the share of the process that is running. */
  function Claimed(t: seq<Proc>, k: nat): int
    requires k <= |t|
  {
    if k == 0 then 0 else
      Claimed(t, k - 1) +
      if Holds(t[k - 1]) || (t[k - 1].mode.Fixed? && t[k - 1].state.Running?) then t[k - 1].share else 0
  }

  /** Every claim is positive and together they are within the limit. */
  ghost predicate Reserved(t: seq<Proc>) {
    && |t| == NPROC && Claimed(t, NPROC) <= MAX_FIXED
    && forall i :: 0 <= i < NPROC && t[i].mode.Fixed? && (Holds(t[i]) || t[i].state.Running?) ==> t[i].share > 0
  }

  /** Whatever runs or sleeps, the shares of those that can run are within the limit. */
  lemma {:induction false} TotalClaimed(t: seq<Proc>, k: nat)
    requires Reserved(t) && k <= NPROC
    ensures Total(t, k) <= Claimed(t, k)
  {
    if k > 0 {
      TotalClaimed(t, k - 1);
      assert Ready(t, k - 1, Fixed) ==> Holds(t[k - 1]);
    }
  }

  /** Going to sleep, waking, being chosen and giving up the processor keep every claim. */
  lemma {:induction false} ClaimsStay(t: seq<Proc>, t': seq<Proc>, k: nat)
    requires |t| == |t'| && k <= |t|
    requires forall i :: 0 <= i < |t| ==>
      t'[i].mode == t[i].mode && t'[i].share == t[i].share && (Alive(t'[i]) <==> Alive(t[i]))
    ensures Claimed(t', k) == Claimed(t, k)
  {
    if k > 0 {
      ClaimsStay(t, t', k - 1);
    }
  }

  lemma {:induction false} EnterClaims(t: seq<Proc>, t': seq<Proc>, me: nat, k: nat)
    requires |t| == |t'| && me < |t| && k <= |t| && OneRunning(t, me)
    requires forall i :: 0 <= i < |t| && i != me ==>
      t'[i].state == t[i].state && t'[i].mode == t[i].mode && t'[i].share == t[i].share
    requires t'[me].mode.Fixed? && t'[me].state.Running?
    ensures Claimed(t', k) == Booked(t, k) + if k > me then t'[me].share else 0
  {
    if k > 0 {
      EnterClaims(t, t', me, k - 1);
    }
  }

  /** `v` is the least path of the clients, or 0 when nothing can run. */
  ghost predicate LeastOf(t: seq<Proc>, m: real, d: real, v: real)
    requires |t| == NPROC
  {
    if exists n :: Present(t, n)
    then exists c: nat :: IsMin(PathsOf(t, m, d), WeightsOf(t), c) && v == PathsOf(t, m, d)[c]
    else v == 0.0
  }

  /** The entry of a process that is not ready matters to no client. */
  lemma RunningAside(t: seq<Proc>, t': seq<Proc>, me: nat, m: real, d: real, v: real)
    requires |t| == |t'| == NPROC && me < NPROC && t[me].state.Running? && t' == t[me := t'[me]]
      && t'[me].state.Running?
    requires LeastOf(t, m, d, v)
    ensures LeastOf(t', m, d, v)
    ensures Total(t', NPROC) == Total(t, NPROC)
  {
    AsideTotal(t, t', NPROC);
    AsidePresent(t, t');
    assert WeightsOf(t') == WeightsOf(t);
    assert PathsOf(t', m, d) == PathsOf(t, m, d);
  }

  lemma {:induction false} AsideTotal(t: seq<Proc>, t': seq<Proc>, k: nat)
    requires |t| == |t'| && k <= |t| && forall i :: 0 <= i < |t| ==>
      t'[i] == t[i] || (!t[i].state.Runnable? && !t'[i].state.Runnable?)
    ensures Total(t', k) == Total(t, k)
  {
    if k > 0 {
      AsideTotal(t, t', k - 1);
    }
  }

  lemma AsidePresent(t: seq<Proc>, t': seq<Proc>)
    requires |t| == |t'| && forall i :: 0 <= i < |t| ==>
      t'[i] == t[i] || (!t[i].state.Runnable? && !t'[i].state.Runnable?)
    ensures forall n :: Present(t', n) <==> Present(t, n)
  {
    forall n
      ensures Present(t', n) <==> Present(t, n)
    {
      if Present(t', n) {
        var i :| 0 <= i < |t'| && Ready(t', i, n);
        assert Ready(t, i, n);
      }
      if Present(t, n) {
        var i :| 0 <= i < |t| && Ready(t, i, n);
        assert Ready(t', i, n);
      }
    }
  }

  /** Process `me` may have another mode, share and path; all else that counts of anybody is as it was. */
  ghost predicate OneEnters(t: seq<Proc>, t': seq<Proc>, me: nat) {
    && |t| == |t'| && me < |t|
    && (forall i :: 0 <= i < |t| ==> t'[i].state == t[i].state && t'[i].level == t[i].level)
    && forall i :: 0 <= i < |t| && i != me ==>
      && t'[i].mode == t[i].mode && t'[i].share == t[i].share
      && (t[i].mode.Fixed? ==> t'[i].path == t[i].path)
  }

  /** The turns `picks` have led from the table `t` with the paths `p` to the table `u` with the paths it has. */
  ghost predicate Stretching(t: seq<Proc>, p: seq<real>, w: seq<real>, picks: seq<nat>, u: seq<Proc>, m: real,
      d: real) {
    && |t| == NPROC && |u| == NPROC && w == WeightsOf(t) && SameRunnable(t, u)
    && Run(p, w, picks) && End(p, w, picks) == PathsOf(u, m, d)
    && (m != -1.0 || !Present(u, Mlfq)) && exists n :: Present(u, n)
  }

  lemma StretchStarts(t: seq<Proc>, m: real, d: real)
    requires |t| == NPROC && (m != -1.0 || !Present(t, Mlfq)) && exists n :: Present(t, n)
    ensures Stretching(t, PathsOf(t, m, d), WeightsOf(t), [], t, m, d)
  {
    SameRunnableSelf(t, PathsOf(t, m, d), WeightsOf(t));
  }

  lemma StretchPick(t: seq<Proc>, p: seq<real>, w: seq<real>, picks: seq<nat>, u: seq<Proc>, m: real, d: real,
      x: Option<nat>)
    requires Stretching(t, p, w, picks, u, m, d)
    ensures MlfqPick(t, x) ==> MlfqPick(u, x) && Answer(u, x)
  {
    RunnableWeights(t, u);
  }

  /** One more turn. */
  lemma StretchStep(t: seq<Proc>, p: seq<real>, w: seq<real>, picks: seq<nat>, u: seq<Proc>, m0: real, d0: real,
                    mid: seq<real>, v: seq<Proc>, m: real, d: real, x: Option<nat>)
    requires Stretching(t, p, w, picks, u, m0, d0) && |v| == NPROC && SameRunnable(u, v)
    requires m0 != -1.0 || !Present(v, Mlfq) ==> mid == PathsOf(u, m0, d0)
    requires m == -1.0 <==> !Present(v, Mlfq)
    requires x.None? <==> forall n :: !Present(v, n)
    requires x.Some? ==> Stepped(u, mid, v, m, d, x.value)
    ensures x.Some? && x.value < NPROC && Stretching(t, p, w, picks + [ClientOf(v, x.value)], v, m, d)
  {
    hide WeightOf, PathOf, WeightsOf, PathsOf, Present, SameRunnable, Run, End;
    RunnableWeights(t, u);
    RunnableAny(u, v);
    RunnablePresent(u, v, Mlfq);
    var c := StepFacts(u, mid, v, m, d, x.value);
    SameRunnableTwice(t, u, v);
    RunAppend(p, w, picks, c);
  }

  lemma StretchEnds(t: seq<Proc>, p: seq<real>, w: seq<real>, picks: seq<nat>, u: seq<Proc>, m: real, d: real, s: real)
    requires Stretching(t, p, w, picks, u, m, d) && Sane(t) && Spread(p, w, s) && Strides(w, s)
    ensures SameRunnable(t, u) && Run(p, w, picks) && End(p, w, picks) == PathsOf(u, m, d)
    ensures Spread(PathsOf(u, m, d), WeightsOf(u), s)
    ensures forall c :: 0 <= c < NPROC + 2 && w[c] > 0.0 ==>
      Fair(Count(picks, c) as real, |picks| as real, w[c], Sum(w), s)
  {
    hide WeightOf, PathOf, WeightsOf, PathsOf, Present, SameRunnable, Run, End, Spread, Strides, Fair;
    RunnableWeights(t, u);
    SpreadKept(p, w, s, picks);
    WeightsPositive(t);
    forall c | 0 <= c < NPROC + 2 && w[c] > 0.0
      ensures Fair(Count(picks, c) as real, |picks| as real, w[c], Sum(w), s)
    {
      ShareBound(p, w, s, picks, c);
    }
  }

  // ----- turns within the default class -----

  /** Process `x` has had a turn: a process of the default class is a level further on, and nobody else is. */
  ghost predicate TurnCounted(t: seq<Proc>, t': seq<Proc>, x: nat) {
    && |t| == |t'| && x < |t|
    && forall i :: 0 <= i < |t| ==> t'[i].level == t[i].level + if i == x && t[i].mode == Default then 1 else 0
  }

  /**
   * What the turn of process `x` adds to its client's path: 100 over a fixed share, 5 for MLFQ, and for the default
   * class 100 over what the others leave of 100.
   */
  ghost predicate PathMoved(t: seq<Proc>, m: real, d: real, t': seq<Proc>, m': real, d': real, x: nat) {
    && |t| == |t'| == NPROC && x < NPROC && t'[x].mode == t[x].mode && t'[x].share == t[x].share
    && match t[x].mode
       case Fixed => t[x].share > 0 && t'[x].path == t[x].path + 100.0 / t[x].share as real && d' == d
       case Mlfq => m != -1.0 ==> m' == m + 5.0 && d' == d
       case Default =>
         var rest := (if Present(t, Mlfq) then 80 else 100) - Total(t, NPROC);
         rest > 0 && d' == d + 100.0 / rest as real
  }

  lemma MovedPath(s: seq<Proc>, m0: real, t: seq<Proc>, m: real, d: real, i: nat)
    requires |s| == NPROC && SameTable(s, t) && i < NPROC && DefaultWeight(t) > 0 && Ready(t, i, t[i].mode)
    requires t[i].mode.Fixed? ==> t[i].share > 0
    requires Present(t, Mlfq) && m0 != -1.0 ==> m == m0
    ensures PathMoved(s, m0, d, Moved(t, i), if t[i].mode.Mlfq? then m + 5.0 else m,
                      if t[i].mode.Default? then d + SCALE / DefaultWeight(t) as real else d, i)
  {
    SameTotals(s, t, NPROC);
  }

  /** The levels of the processes of the default class that can run are no more than `gap` apart. */
  ghost predicate Within(t: seq<Proc>, gap: int) {
    forall i: nat, j: nat :: Ready(t, i, Default) && Ready(t, j, Default) ==> t[i].level <= t[j].level + gap
  }

  /**
   * The processes `turns` have had the turns from the table `t` to the table `u`: their levels have grown by them, and
   * levels that were within a gap of one or more are within it.
   */
  ghost predicate Rotated(t: seq<Proc>, turns: seq<nat>, u: seq<Proc>) {
    && SameRunnable(t, u)
    && (forall i :: 0 <= i < |t| ==> u[i].level == t[i].level + if t[i].mode == Default then Count(turns, i) else 0)
    && (forall gap: int :: gap >= 1 && Within(t, gap) ==> Within(u, gap))
  }

  lemma RotatedNot(t: seq<Proc>)
    ensures Rotated(t, [], t)
  {
  }

  lemma WithinKept(t: seq<Proc>, t': seq<Proc>, x: nat, gap: int)
    requires SameRunnable(t, t') && TurnCounted(t, t', x) && |t| == NPROC && gap >= 1 && Within(t, gap)
    requires t[x].mode == Default ==> LeastLevel(t, NPROC, Some(x))
    ensures Within(t', gap)
  {
    forall i: nat, j: nat | Ready(t', i, Default) && Ready(t', j, Default)
      ensures t'[i].level <= t'[j].level + gap
    {
      assert Ready(t, i, Default) && Ready(t, j, Default);
    }
  }

  lemma {:induction false} CountMore(turns: seq<nat>, x: nat, i: nat)
    ensures Count(turns + [x], i) == Count(turns, i) + if i == x then 1 else 0
  {
    if turns != [] {
      assert (turns + [x])[1..] == turns[1..] + [x];
      CountMore(turns[1..], x, i);
    }
  }

  /** One more turn. */
  lemma RotatedStep(t: seq<Proc>, turns: seq<nat>, u: seq<Proc>, v: seq<Proc>, x: nat)
    requires Rotated(t, turns, u) && |t| == NPROC && SameRunnable(u, v) && TurnCounted(u, v, x)
    requires u[x].mode == Default ==> LeastLevel(u, NPROC, Some(x))
    ensures Rotated(t, turns + [x], v)
  {
    hide Within, LeastLevel;
    forall i | 0 <= i < |t|
      ensures v[i].level == t[i].level + if t[i].mode == Default then Count(turns + [x], i) else 0
    {
      CountMore(turns, x, i);
    }
    forall gap: int | gap >= 1 && Within(t, gap)
      ensures Within(v, gap)
    {
      WithinKept(u, v, x, gap);
    }
  }

  /** So the turns of two processes differ by at most one more than their levels did. */
  lemma TurnsEven(t: seq<Proc>, turns: seq<nat>, u: seq<Proc>, i: nat, j: nat)
    requires Rotated(t, turns, u) && Within(t, 1) && Ready(t, i, Default) && Ready(t, j, Default)
    ensures Within(u, 1) && Count(turns, i) - Count(turns, j) <= 1 + t[j].level - t[i].level
  {
    assert Ready(u, i, Default) && Ready(u, j, Default);
  }

  /** Of the processes of the default class that can run, nobody has had many more turns than another. */
  ghost predicate EvenTurns(t: seq<Proc>, turns: seq<nat>) {
    forall i: nat, j: nat :: Ready(t, i, Default) && Ready(t, j, Default) ==>
      Count(turns, i) - Count(turns, j) <= 1 + t[j].level - t[i].level
  }

  lemma AllEven(t: seq<Proc>, turns: seq<nat>, u: seq<Proc>)
    requires Rotated(t, turns, u)
    ensures Within(t, 1) ==> Within(u, 1) && EvenTurns(t, turns)
  {
    hide Within;
    if Within(t, 1) {
      forall i: nat, j: nat | Ready(t, i, Default) && Ready(t, j, Default)
        ensures Count(turns, i) - Count(turns, j) <= 1 + t[j].level - t[i].level
      {
        TurnsEven(t, turns, u, i, j);
      }
    }
  }

  /** The turns were those of the clients `picks`. */
  ghost predicate Clients(t: seq<Proc>, turns: seq<nat>, picks: seq<nat>) {
    |turns| == |picks| && forall k :: 0 <= k < |turns| ==> turns[k] < |t| && ClientOf(t, turns[k]) == picks[k]
  }

  lemma SameClient(t: seq<Proc>, turns: seq<nat>, u: seq<Proc>, x: nat)
    requires Rotated(t, turns, u) && x < |t|
    ensures ClientOf(u, x) == ClientOf(t, x)
  {
  }

  class Scheduler {
    const procs: array<Proc>
    var dpath: real      // the default class's path, stride and process to run
    var dstride: real
    var dhigh: Option<nat>
    var mpath: real      // the MLFQ class's path, -1 while it has nothing to run
    var mhigh: Option<nat>
    var fixedmin: Option<nat>

    constructor (t: seq<Proc>)
      requires Sane(t)
      ensures fresh(procs) && procs[..] == t && Valid() && dpath == 0.0 && mpath == -1.0
    {
      procs := new Proc[NPROC](i requires 0 <= i < NPROC => t[i]);
      dpath, dstride, mpath, dhigh, mhigh, fixedmin := 0.0, 1.0, -1.0, None, None, None;
      new;
      assert procs[..] == t;
    }

    ghost predicate Valid()
      reads this, procs
    {
      procs.Length == NPROC && Sane(procs[..]) && dpath >= 0.0 && (mpath == -1.0 || mpath >= 0.0)
    }

    /** The first loop of updatevals. */
    method Survey() returns (total: int, mlfq: bool)
      requires Valid()
      modifies this`dhigh, this`fixedmin
      ensures total == Total(procs[..], NPROC) && (mlfq <==> Present(procs[..], Mlfq))
      ensures LeastPath(procs[..], NPROC, fixedmin) && LeastLevel(procs[..], NPROC, dhigh)
    {
      ghost var t := procs[..];
      var min, min2, cnt := -1.0, -1, 0;
      total, dhigh, fixedmin := 0, None, None;
      var k := 0;
      while k < NPROC
        invariant k <= NPROC && total == Total(t, k) && cnt >= 0
        invariant cnt > 0 <==> exists i :: 0 <= i < k && Ready(t, i, Mlfq)
        invariant LeastPath(t, k, fixedmin) && min == (if fixedmin.Some? then t[fixedmin.value].path else -1.0)
        invariant LeastLevel(t, k, dhigh) && min2 == (if dhigh.Some? then t[dhigh.value].level else -1)
      {
        var p := procs[k];
        if p.state.Runnable? {
          if p.mode.Default? {
            if min2 == -1 || p.level < min2 {
              min2 := p.level;
              dhigh := Some(k);
            }
          } else if p.mode.Fixed? {
            total := total + p.share;
            if min == -1.0 || p.path < min {
              fixedmin := Some(k);
              min := p.path;
            }
          } else {
            assert Ready(t, k, Mlfq);
            cnt := cnt + 1;
          }
        }
        k := k + 1;
      }
      mlfq := cnt > 0;
    }

    /** getminproc */
    method MinProc(a: Option<nat>, b: Option<nat>) returns (x: Option<nat>)
      requires (a.Some? ==> a.value < procs.Length) && (b.Some? ==> b.value < procs.Length)
      ensures x == a || x == b
      ensures x.None? <==> a.None? && b.None?
      ensures a.Some? ==> procs[x.value].path <= procs[a.value].path
      ensures b.Some? ==> procs[x.value].path <= procs[b.value].path
      ensures a.Some? && b.Some? ==> x == if procs[a.value].path <= procs[b.value].path then a else b
    {
      if a.None? {
        x := b;
      } else if b.None? {
        x := a;
      } else if procs[a.value].path > procs[b.value].path {
        x := b;
      } else {
        x := a;
      }
    }

    /** updatevals, given what choosebymlfq answers. */
    method UpdateVals(mpick: Option<nat>)
      requires Valid() && Answer(procs[..], mpick)
      modifies this, procs
      ensures Valid() && SameTable(old(procs[..]), procs[..]) && dpath == old(dpath) && mhigh == mpick
        && Answer(procs[..], mpick)
      ensures MlfqPick(procs[..], mpick) <==> old(MlfqPick(procs[..], mpick))
      ensures LeastPath(procs[..], NPROC, fixedmin) && LeastLevel(procs[..], NPROC, dhigh)
      ensures dhigh.Some? ==> procs[dhigh.value].path == dpath
      ensures DefaultWeight(procs[..]) > 0 && dstride == SCALE / DefaultWeight(procs[..]) as real
      ensures mpath == -1.0 <==> !Present(procs[..], Mlfq)
      ensures Present(procs[..], Mlfq) && old(mpath) != -1.0 ==> mpath == old(mpath)
      ensures Present(procs[..], Mlfq) && old(mpath) == -1.0 ==> Joined(procs[..], fixedmin, dhigh, mpath)
    {
      hide Total, Sane, LeastPath, LeastLevel, MlfqPick, Answer, SameTable, Present;
      var total, mlfq := Survey();
      ghost var t := procs[..];
      ChoiceBounds(t, fixedmin, mpick, dhigh);
      SameSelf(t);
      if dhigh.Some? {
        SetPath(t, dhigh.value, dpath);
        procs[dhigh.value] := procs[dhigh.value].(path := dpath);
        assert procs[..] == t[dhigh.value := t[dhigh.value].(path := dpath)];
        SameChoices(t, procs[..], fixedmin, mpick, dhigh);
      }
      if mlfq {
        if mpath == -1.0 {
          var p := MinProc(fixedmin, dhigh);
          mpath := 0.0;
          if p.Some? {
            mpath := procs[p.value].path;
          }
        }
        dstride := SCALE / (80 - total) as real;
      } else {
        mpath := -1.0;
        dstride := SCALE / (100 - total) as real;
      }
      mhigh := mpick;
    }

    /**
     * choosebystride: a client of least path, by a process of it that can run. If the queue answers a process of the
     * default class, the process chosen can run and is not of the MLFQ class.
     */
    method ChooseByStride(mpick: Option<nat>) returns (x: Option<nat>)
      requires Valid() && Answer(procs[..], mpick)
      modifies this, procs
      ensures Valid() && SameTable(old(procs[..]), procs[..]) && dpath == old(dpath)
      ensures old(MlfqPick(procs[..], mpick)) ==>
        && (x.None? <==> forall m :: !Present(procs[..], m))
        && (x.Some? ==> Picked(procs[..], mpath, dpath, x.value))
      ensures x.Some? ==>
        x.value < NPROC && Ready(procs[..], x.value, procs[x.value].mode)
        && (procs[x.value].mode == Mlfq ==> x == mpick)
      ensures mpick.Some? ==> x.Some?
      ensures old(MlfqPick(procs[..], mpick)) && x.Some? && procs[x.value].mode == Default ==>
        LeastLevel(old(procs[..]), NPROC, x)
      ensures DefaultWeight(procs[..]) > 0 && dstride == SCALE / DefaultWeight(procs[..]) as real
      ensures mpath == -1.0 <==> !Present(procs[..], Mlfq)
      ensures Present(procs[..], Mlfq) && old(mpath) != -1.0 ==> mpath == old(mpath)
      ensures Present(procs[..], Mlfq) && old(mpath) == -1.0 && old(MlfqPick(procs[..], mpick)) ==>
        Entered(procs[..], mpath, dpath)
    {
      hide WeightOf, PathOf, WeightsOf, PathsOf, Picked, Entered, Total, Sane, LeastPath, LeastLevel, MlfqPick, Answer,
        SameTable,
           Present, DefaultWeight;
      UpdateVals(mpick);
      ghost var t := procs[..];
      x := Least();
      SameTwice(old(procs[..]), t, procs[..]);
      SameLevels(old(procs[..]), procs[..], dhigh);
      if Present(procs[..], Mlfq) && old(mpath) == -1.0 && MlfqPick(procs[..], mpick) {
        JoinedEntered(procs[..], mpath, dpath, fixedmin, dhigh);
      }
    }

    /** choosebystride after updatevals. */
    method Least() returns (x: Option<nat>)
      requires Valid() && LeastPath(procs[..], NPROC, fixedmin) && LeastLevel(procs[..], NPROC, dhigh)
        && Answer(procs[..], mhigh)
      requires DefaultWeight(procs[..]) > 0 && (dhigh.Some? ==> procs[dhigh.value].path == dpath)
      modifies procs
      ensures Valid() && SameTable(old(procs[..]), procs[..])
      ensures LeastPath(procs[..], NPROC, fixedmin) && LeastLevel(procs[..], NPROC, dhigh)
      ensures DefaultWeight(procs[..]) == old(DefaultWeight(procs[..])) && forall m :: Present(procs[..], m) <==>
        old(Present(procs[..], m))
      ensures MlfqPick(procs[..], mhigh) <==> old(MlfqPick(procs[..], mhigh))
      ensures MlfqPick(procs[..], mhigh) && dhigh.Some? ==>
        dhigh.value < NPROC && old(procs[dhigh.value].path) == procs[dhigh.value].path == dpath
      ensures fixedmin.Some? ==> fixedmin.value < NPROC && procs[fixedmin.value].path == old(procs[fixedmin.value].path)
      ensures MlfqPick(procs[..], mhigh) ==>
        && (x.None? <==> forall m :: !Present(procs[..], m))
        && (x.Some? ==> Picked(procs[..], mpath, dpath, x.value))
      ensures x.Some? ==>
        x.value < NPROC && Ready(procs[..], x.value, procs[x.value].mode)
        && (procs[x.value].mode == Mlfq ==> x == mhigh)
      ensures mhigh.Some? ==> x.Some?
      ensures MlfqPick(procs[..], mhigh) && x.Some? && procs[x.value].mode == Default ==> x == dhigh
    {
      hide WeightOf, PathOf, WeightsOf, PathsOf, Picked, Total, Sane, LeastPath, LeastLevel, MlfqPick, Answer,
        SameTable, Present,
           DefaultWeight;
      ghost var t := procs[..];
      ChoiceBounds(t, fixedmin, mhigh, dhigh);
      SameSelf(t);
      if dhigh.Some? {
        procs[dhigh.value] := procs[dhigh.value].(path := dpath);
        assert procs[..] == t;
      }
      if mhigh.Some? {
        SetPath(t, mhigh.value, mpath);
        procs[mhigh.value] := procs[mhigh.value].(path := mpath);
        assert procs[..] == t[mhigh.value := t[mhigh.value].(path := mpath)];
        SameChoices(t, procs[..], fixedmin, mhigh, dhigh);
        x := MinProc(mhigh, dhigh);
        x := MinProc(fixedmin, x);
      } else {
        x := MinProc(fixedmin, dhigh);
      }
      ChoiceBounds(procs[..], fixedmin, mhigh, dhigh);
      if MlfqPick(procs[..], mhigh) {
        PickMode(procs[..], mhigh);
        LeastPicked(procs[..], mpath, dpath, fixedmin, mhigh, dhigh, x);
      }
    }

    /**
     * One turn of the scheduler: the chosen process runs and can run again. `mid` is the clients' paths once
     * the MLFQ class, if it is just back, has got one. If the queue answers a process of the default class, the
     * path of the MLFQ class does not advance.
     */
    method Step(mpick: Option<nat>) returns (x: Option<nat>, ghost mid: seq<real>)
      requires Valid() && Answer(procs[..], mpick)
      modifies this, procs
      ensures Valid() && SameRunnable(old(procs[..]), procs[..])
      ensures old(MlfqPick(procs[..], mpick)) ==>
        && (x.None? <==> forall m :: !Present(procs[..], m))
        && (x.Some? ==> x.value < NPROC && Stepped(old(procs[..]), mid, procs[..], mpath, dpath, x.value))
      ensures x.Some? ==>
        x.value < NPROC && procs[x.value].state.Runnable? && (procs[x.value].mode == Mlfq ==> x == mpick)
      ensures x.Some? ==> TurnCounted(old(procs[..]), procs[..], x.value)
      ensures x.Some? ==> PathMoved(old(procs[..]), old(mpath), old(dpath), procs[..], mpath, dpath, x.value)
      ensures old(MlfqPick(procs[..], mpick)) && x.Some? && old(procs[..])[x.value].mode == Default ==>
        LeastLevel(old(procs[..]), NPROC, x)
      ensures
        mpick.Some? && old(procs[mpick.value]).mode == Default && Present(procs[..], Mlfq) && old(mpath) != -1.0 ==>
        mpath == old(mpath) && x.Some? && procs[x.value].mode != Mlfq
      ensures old(mpath) != -1.0 || !Present(procs[..], Mlfq) ==> mid == old(PathsOf(procs[..], mpath, dpath))
      ensures mpath == -1.0 <==> !Present(procs[..], Mlfq)
      ensures |mid| == NPROC + 2 && forall c :: 0 <= c < NPROC + 2 && c != NPROC ==>
        mid[c] == old(PathsOf(procs[..], mpath, dpath))[c]
    {
      hide WeightOf, PathOf, WeightsOf, PathsOf, Total, Sane, MlfqPick, SameTable, Present, DefaultWeight, Entered,
        SameRunnable, Stepped, Picked, PathMoved, TurnCounted;
      x := ChooseByStride(mpick);
      ghost var t, m, d := procs[..], mpath, dpath;
      SamePaths(old(procs[..]), t, old(mpath), m, d);
      mid := PathsOf(t, m, d);
      if x.Some? {
        var i := x.value;
        ReadyFacts(old(procs[..]), t, i, mpick);
        if procs[i].mode.Default? {
          dpath := dpath + dstride;
          procs[i] := procs[i].(level := procs[i].level + 1);
        } else if procs[i].mode.Fixed? {
          procs[i] := procs[i].(path := procs[i].path + SCALE / procs[i].share as real);
        } else {
          mpath := mpath + 5.0;
        }
        assert procs[..] == Moved(t, i);
        MovedCounted(old(procs[..]), t, i);
        MovedPath(old(procs[..]), old(mpath), t, m, d, i);
        MovedOnly(old(procs[..]), t, i);
        if old(MlfqPick(procs[..], mpick)) {
          StepEffect(old(procs[..]), t, m, d, i);
        }
      }
    }

    /**
     * Any number of turns in which the same processes can run, from paths no further apart than one longest
     * stride: every client gets its share of the turns, to within 2 `s` w / 100.
     */
    method Stretch(mpicks: seq<Option<nat>>, ghost s: real) returns (picks: seq<nat>, turns: seq<nat>)
      requires Valid() && exists m :: Present(procs[..], m)
      requires forall k :: 0 <= k < |mpicks| ==> MlfqPick(procs[..], mpicks[k])
      requires mpath != -1.0 || !Present(procs[..], Mlfq)
      requires Spread(PathsOf(procs[..], mpath, dpath), WeightsOf(procs[..]), s) && Strides(WeightsOf(procs[..]), s)
      modifies this, procs
      ensures Valid() && |picks| == |mpicks| && SameRunnable(old(procs[..]), procs[..])
      ensures Run(old(PathsOf(procs[..], mpath, dpath)), old(WeightsOf(procs[..])), picks)
      ensures End(old(PathsOf(procs[..], mpath, dpath)), old(WeightsOf(procs[..])), picks)
           == PathsOf(procs[..], mpath, dpath)
      ensures Spread(PathsOf(procs[..], mpath, dpath), WeightsOf(procs[..]), s)
      ensures forall c :: 0 <= c < NPROC + 2 && old(WeightsOf(procs[..]))[c] > 0.0 ==>
        Fair(Count(picks, c) as real, |picks| as real, old(WeightsOf(procs[..]))[c], Sum(old(WeightsOf(procs[..]))), s)
      ensures |turns| == |picks| && Clients(old(procs[..]), turns, picks) && Rotated(old(procs[..]), turns, procs[..])
      ensures old(Within(procs[..], 1)) ==> Within(procs[..], 1) && EvenTurns(old(procs[..]), turns)
    {
      hide WeightOf, PathOf, WeightsOf, PathsOf, Total, Sane, MlfqPick, Present, DefaultWeight, SameRunnable, Spread,
        Strides, Fair, Run, Stretching, Rotated, TurnCounted, LeastLevel, Within, EvenTurns;
      ghost var t, p, w := procs[..], PathsOf(procs[..], mpath, dpath), WeightsOf(procs[..]);
      picks, turns := [], [];
      StretchStarts(t, mpath, dpath);
      RotatedNot(t);
      for k := 0 to |mpicks|
        invariant |picks| == |turns| == k && Valid() && Stretching(t, p, w, picks, procs[..], mpath, dpath)
        invariant Rotated(t, turns, procs[..]) && Clients(t, turns, picks)
      {
        ghost var u, m, d := procs[..], mpath, dpath;
        StretchPick(t, p, w, picks, u, m, d, mpicks[k]);
        var x, mid := Step(mpicks[k]);
        StretchStep(t, p, w, picks, u, m, d, mid, procs[..], mpath, dpath, x);
        RotatedStep(t, turns, u, procs[..], x.value);
        SameClient(t, turns + [x.value], procs[..], x.value);
        picks, turns := picks + [ClientOf(procs[..], x.value)], turns + [x.value];
      }
      StretchEnds(t, p, w, picks, procs[..], mpath, dpath, s);
      AllEven(t, turns, procs[..]);
    }

    /** getminpath */
    method GetMinPath(mpick: Option<nat>) returns (v: real)
      requires Valid() && MlfqPick(procs[..], mpick)
      modifies this, procs
      ensures Valid() && SameTable(old(procs[..]), procs[..]) && LeastOf(procs[..], mpath, dpath, v) && v >= 0.0
      ensures dpath == old(dpath) && (Present(procs[..], Mlfq) && old(mpath) != -1.0 ==> mpath == old(mpath))
    {
      var x := ChooseByStride(mpick);
      if x.Some? {
        v := procs[x.value].path;
        assert IsMin(PathsOf(procs[..], mpath, dpath), WeightsOf(procs[..]), ClientOf(procs[..], x.value));
      } else {
        v := 0.0;
      }
    }

    /** cpu_share's test: the shares of the processes that can run or sleep leave room for `n` more. */
    method Room(n: int) returns (ok: bool)
      requires procs.Length == NPROC
      ensures ok <==> n > 0 && Booked(procs[..], NPROC) + n <= MAX_FIXED
    {
      var total := 0;
      var k := 0;
      while k < NPROC
        invariant k <= NPROC && total == Booked(procs[..], k)
      {
        if procs[k].mode.Fixed? && (procs[k].state.Runnable? || procs[k].state.Sleeping?) {
          total := total + procs[k].share;
        }
        k := k + 1;
      }
      ok := !(n <= 0 || total + n > MAX_FIXED);
    }

    /** cpu_share, called by process `me`, the one that is running: it starts level with the least path. */
    method CpuShare(me: nat, n: int, mpick: Option<nat>) returns (ok: bool)
      requires Valid() && MlfqPick(procs[..], mpick) && me < NPROC && OneRunning(procs[..], me) && Reserved(procs[..])
      modifies this, procs
      ensures ok <==> n > 0 && Booked(old(procs[..]), NPROC) + n <= MAX_FIXED
      ensures !ok ==> unchanged(this) && unchanged(procs)
      ensures ok ==> Valid() && Reserved(procs[..]) && procs[me].mode == Fixed && procs[me].share == n
      ensures ok ==> LeastOf(procs[..], mpath, dpath, procs[me].path)
      ensures ok ==> OneEnters(old(procs[..]), procs[..], me) && dpath == old(dpath)
    {
      ok := Room(n);
      if ok {
        Enter(me, n, mpick);
      }
    }

    /** The rest of cpu_share, once there is room. */
    method Enter(me: nat, n: int, mpick: Option<nat>)
      requires Valid() && MlfqPick(procs[..], mpick) && me < NPROC && OneRunning(procs[..], me)
      requires n > 0 && Booked(procs[..], NPROC) + n <= MAX_FIXED && Reserved(procs[..])
      modifies this, procs
      ensures Valid() && Reserved(procs[..]) && procs[me].mode == Fixed && procs[me].share == n
      ensures LeastOf(procs[..], mpath, dpath, procs[me].path)
      ensures OneEnters(old(procs[..]), procs[..], me) && dpath == old(dpath)
    {
      var v := GetMinPath(mpick);
      ghost var t := procs[..];
      procs[me] := procs[me].(share := n, path := v, mode := Fixed);
      assert procs[..] == t[me := procs[me]];
      EnterClaims(old(procs[..]), procs[..], me, NPROC);
      RunningAside(t, procs[..], me, mpath, dpath, v);
    }
  }
}
