/**
 * Stride scheduling of weighted clients. A client of weight zero takes no part. The client picked is one of
 * least path, and its path then grows by 100 over its weight.
 */
module StrideSpec {
  const SCALE: real := 100.0

  function Mul(a: real, b: real): real {
    a * b
  }

  function Stride(w: real): real
    requires w > 0.0
  {
    SCALE / w
  }

  lemma Products(a: real, b: real, x: real, y: real)
    ensures Mul(a + b, x) == Mul(a, x) + Mul(b, x)
    ensures Mul(a, x + y) == Mul(a, x) + Mul(a, y)
    ensures Mul(a, x - y) == Mul(a, x) - Mul(a, y)
    ensures a == 0.0 ==> Mul(a, x) == 0.0
  {
  }

  lemma Cancel(w: real)
    requires w > 0.0
    ensures Mul(w, Stride(w)) == SCALE
  {
  }

  lemma Scaled(c: real, a: real, b: real)
    requires c >= 0.0 && -b <= a <= b
    ensures -Mul(c, b) <= Mul(c, a) <= Mul(c, b)
  {
  }

  function Sum(w: seq<real>): real {
    if w == [] then 0.0 else w[0] + Sum(w[1..])
  }

  function Dot(w: seq<real>, d: seq<real>): real
    requires |w| == |d|
  {
    if w == [] then 0.0 else Mul(w[0], d[0]) + Dot(w[1..], d[1..])
  }

  ghost predicate Weights(w: seq<real>) {
    forall i :: 0 <= i < |w| ==> w[i] >= 0.0
  }

  ghost predicate IsMin(p: seq<real>, w: seq<real>, i: nat) {
    |p| == |w| && i < |w| && w[i] > 0.0 && forall j :: 0 <= j < |w| && w[j] > 0.0 ==> p[i] <= p[j]
  }

  /** No two paths are further apart than `s`. */
  ghost predicate Spread(p: seq<real>, w: seq<real>, s: real) {
    |p| == |w| && forall i, j :: 0 <= i < |w| && 0 <= j < |w| && w[i] > 0.0 && w[j] > 0.0 ==> p[i] - p[j] <= s
  }

  /** No stride is longer than `s`. */
  ghost predicate Strides(w: seq<real>, s: real) {
    forall i :: 0 <= i < |w| && w[i] > 0.0 ==> Stride(w[i]) <= s
  }

  function Advance(p: seq<real>, w: seq<real>, i: nat): seq<real>
    requires i < |p| == |w| && w[i] > 0.0
  {
    p[i := p[i] + Stride(w[i])]
  }

  ghost predicate Run(p: seq<real>, w: seq<real>, picks: seq<nat>)
    decreases |picks|
  {
    picks == [] || (IsMin(p, w, picks[0]) && Run(Advance(p, w, picks[0]), w, picks[1..]))
  }

  ghost function End(p: seq<real>, w: seq<real>, picks: seq<nat>): (q: seq<real>)
    requires Run(p, w, picks)
    ensures |q| == |p|
    decreases |picks|
  {
    if picks == [] then p else End(Advance(p, w, picks[0]), w, picks[1..])
  }

  function Count(picks: seq<nat>, i: nat): nat {
    if picks == [] then 0 else (if picks[0] == i then 1 else 0) + Count(picks[1..], i)
  }

  lemma SpreadStep(p: seq<real>, w: seq<real>, s: real, i: nat)
    requires Spread(p, w, s) && Strides(w, s) && IsMin(p, w, i)
    ensures Spread(Advance(p, w, i), w, s)
  {
  }

  /** Paths within one longest stride of each other stay so, after every pick. */
  lemma {:induction false} SpreadKept(p: seq<real>, w: seq<real>, s: real, picks: seq<nat>)
    requires Spread(p, w, s) && Strides(w, s) && Run(p, w, picks)
    ensures Spread(End(p, w, picks), w, s)
    decreases |picks|
  {
    if picks != [] {
      SpreadStep(p, w, s, picks[0]);
      SpreadKept(Advance(p, w, picks[0]), w, s, picks[1..]);
    }
  }

  /** A path has grown by one stride for each pick. */
  lemma {:induction false} PathGrowth(p: seq<real>, w: seq<real>, picks: seq<nat>, i: nat)
    requires Run(p, w, picks) && i < |p| == |w| && w[i] > 0.0
    ensures Mul(w[i], End(p, w, picks)[i] - p[i]) == SCALE * Count(picks, i) as real
    decreases |picks|
  {
    hide Mul, Stride;
    if picks == [] {
      Products(w[i], 0.0, p[i], p[i]);
    } else {
      var p' := Advance(p, w, picks[0]);
      PathGrowth(p', w, picks[1..], i);
      var q := End(p, w, picks)[i];
      Products(w[i], 0.0, q - p'[i], p'[i] - p[i]);
      Products(w[i], 0.0, p'[i], p[i]);
      Cancel(w[i]);
      if picks[0] != i {
        Products(w[i], 0.0, p[i], p[i]);
      }
    }
  }

  /** What each client has moved, weighted, adds up to 100 for every pick. */
  lemma {:induction false} TotalGrowth(p: seq<real>, w: seq<real>, picks: seq<nat>)
    requires Run(p, w, picks) && |p| == |w|
    ensures Dot(w, End(p, w, picks)) - Dot(w, p) == SCALE * |picks| as real
    decreases |picks|
  {
    hide Mul, Stride;
    if picks != [] {
      TotalGrowth(Advance(p, w, picks[0]), w, picks[1..]);
      DotUpdate(w, p, picks[0], Stride(w[picks[0]]));
      Cancel(w[picks[0]]);
    }
  }

  lemma {:induction false} DotUpdate(w: seq<real>, d: seq<real>, i: nat, x: real)
    requires i < |w| == |d|
    ensures Dot(w, d[i := d[i] + x]) == Dot(w, d) + Mul(w[i], x)
  {
    hide Mul;
    var e := d[i := d[i] + x];
    if i == 0 {
      assert e[1..] == d[1..];
      Products(w[0], 0.0, d[0], x);
    } else {
      assert e[1..] == d[1..][i - 1 := d[1..][i - 1] + x];
      DotUpdate(w[1..], d[1..], i - 1, x);
    }
  }

  /** A weighted total is near what it would be if every client had moved by `x`. */
  lemma {:induction false} Near(w: seq<real>, p: seq<real>, q: seq<real>, x: real, s: real)
    requires |w| == |p| == |q| && Weights(w)
    requires forall j :: 0 <= j < |w| && w[j] > 0.0 ==> -s <= x - (q[j] - p[j]) <= s
    ensures -Mul(Sum(w), s) <= Mul(Sum(w), x) - (Dot(w, q) - Dot(w, p)) <= Mul(Sum(w), s)
  {
    hide Mul;
    if w == [] {
      Products(0.0, 0.0, x, s);
      Products(0.0, 0.0, s, x);
    } else {
      var a, b := w[0], Sum(w[1..]);
      Near(w[1..], p[1..], q[1..], x, s);
      Products(a, b, x, q[0] - p[0]);
      Products(a, b, s, q[0]);
      Products(a, b, q[0], p[0]);
      if a > 0.0 {
        Scaled(a, x - (q[0] - p[0]), s);
      } else {
        Products(a, b, x - (q[0] - p[0]), s);
      }
    }
  }

  /** Of `n` picks, `c` is within 2 `s` w / 100 of what weight `a` out of `t` is due. */
  ghost predicate Fair(c: real, n: real, a: real, t: real, s: real) {
    t > 0.0 && -(2.0 * s * a / SCALE) <= c - a * n / t <= 2.0 * s * a / SCALE
  }

  /**
   * Over any run of picks, a client's picks differ from its share of them by no more than 2 `s` w / 100,
   * where `s` bounds every stride and the distance between paths at the start.
   */
  lemma ShareBound(p: seq<real>, w: seq<real>, s: real, picks: seq<nat>, i: nat)
    requires Weights(w) && Spread(p, w, s) && Strides(w, s) && Run(p, w, picks) && i < |w| && w[i] > 0.0
    ensures Fair(Count(picks, i) as real, |picks| as real, w[i], Sum(w), s)
  {
    hide Mul, Stride, Fair;
    SumPositive(w, i);
    var q := End(p, w, picks);
    SpreadKept(p, w, s, picks);
    PathGrowth(p, w, picks, i);
    TotalGrowth(p, w, picks);
    var x := q[i] - p[i];
    forall j | 0 <= j < |w| && w[j] > 0.0
      ensures -(2.0 * s) <= x - (q[j] - p[j]) <= 2.0 * s
    {
    }
    Near(w, p, q, x, 2.0 * s);
    Shares(w[i], Sum(w), x, s, Count(picks, i) as real, |picks| as real);
  }

  lemma {:induction false} SumPositive(w: seq<real>, i: nat)
    requires Weights(w) && i < |w|
    ensures Sum(w) >= w[i]
  {
    if i > 0 {
      SumPositive(w[1..], i - 1);
    } else if |w| > 1 {
      SumPositive(w[1..], 0);
    }
  }

  lemma Shares(a: real, t: real, x: real, s: real, c: real, n: real)
    requires a > 0.0 && t > 0.0 && Mul(a, x) == SCALE * c
    requires -Mul(t, 2.0 * s) <= Mul(t, x) - SCALE * n <= Mul(t, 2.0 * s)
    ensures Fair(c, n, a, t, s)
  {
    var y := x - SCALE * n / t;
    assert t * y == t * x - SCALE * n;
    Quotient(t, y, 2.0 * s);
    Scaled(a, y, 2.0 * s);
    assert a * y == SCALE * c - SCALE * (a * n / t);
  }

  lemma Quotient(t: real, y: real, b: real)
    requires t > 0.0 && -(t * b) <= t * y <= t * b
    ensures -b <= y <= b
  {
    assert y > b ==> t * (y - b) > 0.0;
    assert y < -b ==> t * (-b - y) > 0.0;
  }

  lemma {:induction false} RunAppend(p: seq<real>, w: seq<real>, picks: seq<nat>, i: nat)
    requires Run(p, w, picks) && IsMin(End(p, w, picks), w, i) && |p| == |w|
    ensures Run(p, w, picks + [i]) && End(p, w, picks + [i]) == Advance(End(p, w, picks), w, i)
    decreases |picks|
  {
    if picks == [] {
      assert [i][1..] == [];
      assert picks + [i] == [i];
    } else {
      assert (picks + [i])[1..] == picks[1..] + [i];
      RunAppend(Advance(p, w, picks[0]), w, picks[1..], i);
    }
  }
}
