/** Sequences without repetition, and the sizes of sets. */
module Collections {
  ghost predicate Distinct(xs: seq<nat>) {
    forall i, j :: 0 <= i < j < |xs| ==> xs[i] != xs[j]
  }

  function Without<T>(order: seq<T>, i: nat): (r: seq<T>)
    requires i < |order|
    ensures |r| == |order| - 1
    ensures forall k :: 0 <= k < |r| ==> r[k] == if k < i then order[k] else order[k + 1]
  {
    order[..i] + order[i + 1..]
  }

  function With<T>(order: seq<T>, k: nat, b: T): (r: seq<T>)
    requires k <= |order|
    ensures |r| == |order| + 1
    ensures forall j :: 0 <= j < |r| ==> r[j] == if j < k then order[j] else if j == k then b else order[j - 1]
  {
    order[..k] + [b] + order[k..]
  }

  lemma WithoutMembers(order: seq<nat>, k: nat)
    requires k < |order| && Distinct(order)
    ensures Distinct(Without(order, k)) && forall x :: x in Without(order, k) <==> x in order && x != order[k]
  {
    var r := Without(order, k);
    forall x
      ensures x in r <==> x in order && x != order[k]
    {
      if x in order && x != order[k] {
        var i :| 0 <= i < |order| && order[i] == x;
        assert r[if i < k then i else i - 1] == x;
      }
      if x in r {
        var i :| 0 <= i < |r| && r[i] == x;
        assert order[if i < k then i else i + 1] == x;
      }
    }
  }

  lemma WithMembers(order: seq<nat>, k: nat, b: nat)
    requires k <= |order| && b !in order && Distinct(order)
    ensures Distinct(With(order, k, b)) && forall x :: x in With(order, k, b) <==> x in order || x == b
  {
    var r := With(order, k, b);
    forall x
      ensures x in r <==> x in order || x == b
    {
      if x in order {
        var i :| 0 <= i < |order| && order[i] == x;
        assert r[if i < k then i else i + 1] == x;
      }
      assert r[k] == b;
    }
    forall i, j | 0 <= i < j < |r|
      ensures r[i] != r[j]
    {
      assert i != k ==> r[i] in order;
      assert j != k ==> r[j] in order;
    }
  }

  function UpTo(n: nat): (s: set<nat>)
    ensures |s| == n && forall i: nat :: i in s <==> i < n
  {
    if n == 0 then {} else UpTo(n - 1) + {n - 1}
  }

  lemma {:induction false} Pigeonhole(order: seq<nat>, s: set<nat>)
    requires Distinct(order) && forall k :: 0 <= k < |order| ==> order[k] in s
    ensures |order| <= |s|
  {
    if order != [] {
      Pigeonhole(order[1..], s - {order[0]});
    }
  }

  /** `n` distinct nodes below `n` are all of them. */
  lemma Complete(order: seq<nat>, n: nat)
    requires Distinct(order) && |order| == n && forall k :: 0 <= k < n ==> order[k] < n
    ensures forall b: nat :: b < n ==> b in order
  {
    forall b: nat | b < n
      ensures b in order
    {
      if b !in order {
        Pigeonhole(order, UpTo(n) - {b});
      }
    }
  }

  lemma {:induction false} Subset<T>(s: set<T>, t: set<T>)
    requires s <= t
    ensures |s| <= |t|
  {
    if s != {} {
      var x :| x in s;
      Subset(s - {x}, t - {x});
    }
  }
}
