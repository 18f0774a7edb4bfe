/** A doubly linked ring through a head, kept in two arrays of indices, and the order it stands for. */
module Ring {
  import opened Collections

  /** The node after the `k`-th of the order, and the one before it; the head closes the ring. */
  function Succ(head: nat, order: seq<nat>, k: int): nat
    requires -1 <= k < |order|
  {
    if k + 1 < |order| then order[k + 1] else head
  }

  function Pred(head: nat, order: seq<nat>, k: int): nat
    requires 0 <= k <= |order|
  {
    if k > 0 then order[k - 1] else head
  }

  /** The links of the `k`-th node. */
  ghost predicate Joint(next: seq<nat>, prev: seq<nat>, head: nat, order: seq<nat>, k: nat) {
    k < |order| ==>
      && order[k] < |next| && next[order[k]] == Succ(head, order, k)
      && order[k] < |prev| && prev[order[k]] == Pred(head, order, k)
  }

  /**
   * The nodes of the ring are those of `order`, in that order, once each, with `head` between the last and the first.
   */
  ghost predicate IsRing(next: seq<nat>, prev: seq<nat>, head: nat, order: seq<nat>) {
    && |next| == |prev| && head < |next| && head !in order && Distinct(order)
    && (forall k :: 0 <= k < |order| ==> order[k] < |next|)
    && next[head] == Succ(head, order, -1)
    && prev[head] == Pred(head, order, |order|)
    && (forall k: nat :: Joint(next, prev, head, order, k))
  }

  lemma EmptyRing(next: seq<nat>, prev: seq<nat>, head: nat)
    requires |next| == |prev| && head < |next| && next[head] == head && prev[head] == head
    ensures IsRing(next, prev, head, [])
  {
  }

  /** One step along the ring, either way. */
  lemma Steps(next: seq<nat>, prev: seq<nat>, head: nat, order: seq<nat>, k: nat)
    requires IsRing(next, prev, head, order) && k < |order|
    ensures order[k] < |next| == |prev| && order[k] != head
    ensures next[order[k]] == if k + 1 < |order| then order[k + 1] else head
    ensures prev[order[k]] == if k > 0 then order[k - 1] else head
  {
    assert Joint(next, prev, head, order, k);
  }

  lemma Ends(next: seq<nat>, prev: seq<nat>, head: nat, order: seq<nat>)
    requires IsRing(next, prev, head, order) && order != []
    ensures head < |next| == |prev| && next[head] == order[0] && prev[head] == order[|order| - 1] && Distinct(order)
  {
  }

  lemma RingDistinct(next: seq<nat>, prev: seq<nat>, head: nat, order: seq<nat>)
    requires IsRing(next, prev, head, order)
    ensures Distinct(order)
  {
  }

  /** b->next->prev = b->prev; b->prev->next = b->next; */
  lemma Unlinked(next: seq<nat>, prev: seq<nat>, head: nat, order: seq<nat>, k: nat)
    requires IsRing(next, prev, head, order) && k < |order|
    ensures var b := order[k];
      && b < |next| && next[b] < |prev| && prev[b] < |next|
      && IsRing(next[prev[b] := next[b]], prev[next[b] := prev[b]], head, Without(order, k))
      && b !in Without(order, k) && b != head
  {
    hide Succ, Pred;
    var r := Without(order, k);
    var f, g := Pred(head, order, k), Succ(head, order, k);
    UnlinkedHead(next, prev, head, order, k);
    WithoutMembers(order, k);
    var n, p := next[f := g], prev[g := f];
    forall j: nat
      ensures Joint(n, p, head, r, j)
    {
      UnlinkedNode(next, prev, head, order, k, j);
    }
  }

  lemma UnlinkedNode(next: seq<nat>, prev: seq<nat>, head: nat, order: seq<nat>, k: nat, j: nat)
    requires IsRing(next, prev, head, order) && k < |order|
    ensures var f, g := Pred(head, order, k), Succ(head, order, k);
      f < |next| && g < |next| && Joint(next[f := g], prev[g := f], head, Without(order, k), j)
  {
    if j < k {
      assert Joint(next, prev, head, order, j);
    } else {
      assert Joint(next, prev, head, order, j + 1);
    }
  }

  lemma UnlinkedHead(next: seq<nat>, prev: seq<nat>, head: nat, order: seq<nat>, k: nat)
    requires IsRing(next, prev, head, order) && k < |order|
    ensures var r := Without(order, k); var f, g := Pred(head, order, k), Succ(head, order, k);
      f < |next| && g < |next| && next[f := g][head] == Succ(head, r, -1) && prev[g := f][head] == Pred(head, r, |r|)
    ensures next[order[k]] == Succ(head, order, k) && prev[order[k]] == Pred(head, order, k)
  {
    var r := Without(order, k);
    assert Joint(next, prev, head, order, k);
    if k == 0 {
      assert prev[head] == Pred(head, order, |order|);
    } else {
      assert order[k - 1] != head;
    }
    if k + 1 < |order| {
      assert order[k + 1] != head;
    }
  }

  /** Linking `b` in between the `k`-th node and the one before it. */
  lemma Linked(next: seq<nat>, prev: seq<nat>, head: nat, order: seq<nat>, k: nat, b: nat)
    requires IsRing(next, prev, head, order) && k <= |order| && b < |next| && b != head && b !in order
    ensures var p, n := Pred(head, order, k), Succ(head, order, k - 1);
      && p < |next| && n < |prev|
      && IsRing(next[b := n][p := b], prev[b := p][n := b], head, With(order, k, b))
  {
    hide Succ, Pred;
    var r := With(order, k, b);
    var p, n := Pred(head, order, k), Succ(head, order, k - 1);
    LinkedHead(next, prev, head, order, k, b);
    WithMembers(order, k, b);
    var next', prev' := next[b := n][p := b], prev[b := p][n := b];
    forall j: nat
      ensures Joint(next', prev', head, r, j)
    {
      LinkedNode(next, prev, head, order, k, b, j);
    }
  }

  lemma LinkedHead(next: seq<nat>, prev: seq<nat>, head: nat, order: seq<nat>, k: nat, b: nat)
    requires IsRing(next, prev, head, order) && k <= |order| && b < |next| && b != head && b !in order
    ensures var r := With(order, k, b); var p, n := Pred(head, order, k), Succ(head, order, k - 1);
      && p < |next| && n < |prev| && next[b := n][p := b][head] == Succ(head, r, -1)
        && prev[b := p][n := b][head] == Pred(head, r, |r|)
  {
    var r := With(order, k, b);
    assert k > 0 ==> order[k - 1] != head;
    assert k < |order| ==> order[k] != head;
    assert r[0] == if k == 0 then b else order[0];
    assert r[|r| - 1] == if k == |order| then b else order[|order| - 1];
  }

  lemma LinkedNode(next: seq<nat>, prev: seq<nat>, head: nat, order: seq<nat>, k: nat, b: nat, j: nat)
    requires IsRing(next, prev, head, order) && k <= |order| && b < |next| && b != head && b !in order
    ensures var p, n := Pred(head, order, k), Succ(head, order, k - 1);
      p < |next| && n < |prev| && Joint(next[b := n][p := b], prev[b := p][n := b], head, With(order, k, b), j)
  {
    if j < k {
      LinkedBefore(next, prev, head, order, k, b, j);
    } else if j > k {
      LinkedAfter(next, prev, head, order, k, b, j);
    }
  }

  lemma LinkedBefore(next: seq<nat>, prev: seq<nat>, head: nat, order: seq<nat>, k: nat, b: nat, j: nat)
    requires IsRing(next, prev, head, order) && k <= |order| && b < |next| && b != head && b !in order && j < k
    ensures var p, n := Pred(head, order, k), Succ(head, order, k - 1);
      p < |next| && n < |prev| && Joint(next[b := n][p := b], prev[b := p][n := b], head, With(order, k, b), j)
  {
    assert Joint(next, prev, head, order, j);
    assert j < k - 1 ==> order[j] != order[k - 1];
    assert k < |order| ==> order[j] != order[k];
  }

  lemma LinkedAfter(next: seq<nat>, prev: seq<nat>, head: nat, order: seq<nat>, k: nat, b: nat, j: nat)
    requires IsRing(next, prev, head, order) && k <= |order| && b < |next| && b != head && b !in order && j > k
    ensures var p, n := Pred(head, order, k), Succ(head, order, k - 1);
      p < |next| && n < |prev| && Joint(next[b := n][p := b], prev[b := p][n := b], head, With(order, k, b), j)
  {
    if j <= |order| {
      var r := With(order, k, b);
      assert Joint(next, prev, head, order, j - 1);
      assert r[j] == order[j - 1] && r[j] != b && r[j] != head;
      assert Succ(head, r, j) == Succ(head, order, j - 1);
      assert Pred(head, r, j) == if j - 1 == k then b else order[j - 2];
      assert k > 0 ==> order[k - 1] != order[j - 1];
      assert k < j - 1 ==> order[k] != order[j - 1];
    }
  }

  /** b->next = head->next; b->prev = head; head->next->prev = b; head->next = b; */
  lemma PushedFront(next: seq<nat>, prev: seq<nat>, head: nat, order: seq<nat>, b: nat)
    requires IsRing(next, prev, head, order) && b < |next| && b != head && b !in order
    ensures next[head] < |prev|
    ensures IsRing(next[b := next[head]][head := b], prev[b := head][next[head] := b], head, [b] + order)
  {
    Linked(next, prev, head, order, 0, b);
    assert With(order, 0, b) == [b] + order;
  }
}
