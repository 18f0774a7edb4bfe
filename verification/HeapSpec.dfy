/** The K&R allocator of umalloc.c as values: blocks that tile the units obtained, and the ring of free ones. */
module HeapSpec {
  import opened Collections

  const NULL: nat := 0
  const BASE: nat := 1           // the static header, below every heap address
  const HEADER: nat := 8         // bytes in a unit
  const MINCORE: nat := 4096
  const UINT: nat := 0x1_0000_0000

  /** One unit of memory read as a header. */
  datatype Header = Header(ptr: nat, size: nat)

  /** Units for a request: the payload rounded up and a header, in 32-bit arithmetic. */
  function Units(nbytes: nat): (n: nat)
    ensures n > 0
  {
    (nbytes + HEADER - 1) % UINT / HEADER + 1
  }

  /** The payload holds the request exactly when rounding up does not wrap around. */
  lemma UnitsHold(nbytes: nat)
    requires nbytes < UINT
    ensures HEADER * (Units(nbytes) - 1) >= nbytes <==> nbytes <= UINT - HEADER
    ensures nbytes <= UINT - HEADER ==> HEADER * (Units(nbytes) - 1) < nbytes + HEADER
  {
    if nbytes <= UINT - HEADER {
      assert (nbytes + HEADER - 1) % UINT == nbytes + HEADER - 1;
    } else {
      assert (nbytes + HEADER - 1) % UINT == nbytes + HEADER - 1 - UINT;
    }
  }

  /** Unit `u` lies in block `b`. */
  ghost predicate In(owner: map<nat, nat>, u: nat, b: nat) {
    u in owner && owner[u] == b
  }

  /** Every block, free or in use, is a run of units; `owner` says which block each unit obtained from sbrk is in. */
  ghost predicate Tiled(blocks: map<nat, nat>, owner: map<nat, nat>) {
    && (forall b :: b in blocks ==> b > BASE && blocks[b] > 0)
    && (forall b, u :: b in blocks && b <= u < b + blocks[b] ==> In(owner, u, b))
    && (forall u :: u in owner ==> owner[u] in blocks && owner[u] <= u < owner[u] + blocks[owner[u]])
  }

  /** Two blocks never overlap. */
  lemma Apart(blocks: map<nat, nat>, owner: map<nat, nat>, b: nat, c: nat)
    requires Tiled(blocks, owner) && b in blocks && c in blocks && b < c
    ensures b + blocks[b] <= c
  {
    assert In(owner, c, c);
    assert c < b + blocks[b] ==> In(owner, c, b);
  }

  /** What splitting, joining and obtaining blocks do. */
  function Split(blocks: map<nat, nat>, b: nat, n: nat): map<nat, nat>
    requires b in blocks && 0 < n < blocks[b]
  {
    blocks[b := blocks[b] - n][b + blocks[b] - n := n]
  }

  function SplitOwner(blocks: map<nat, nat>, owner: map<nat, nat>, b: nat, n: nat): map<nat, nat>
    requires b in blocks && 0 < n < blocks[b]
  {
    Claim(owner, b + blocks[b] - n, n, b + blocks[b] - n)
  }

  function Joined(blocks: map<nat, nat>, b: nat): map<nat, nat>
    requires b in blocks && b + blocks[b] in blocks
  {
    var c := b + blocks[b];
    (blocks - {c})[b := blocks[b] + blocks[c]]
  }

  function JoinedOwner(blocks: map<nat, nat>, owner: map<nat, nat>, b: nat): map<nat, nat>
    requires b in blocks && b + blocks[b] in blocks
  {
    Claim(owner, b + blocks[b], blocks[b + blocks[b]], b)
  }

  function Interval(a: nat, n: nat): (s: set<nat>)
    ensures forall u: nat :: u in s <==> a <= u < a + n
  {
    if n == 0 then {} else Interval(a, n - 1) + {a + n - 1}
  }

  function Obtained(owner: map<nat, nat>, a: nat, n: nat): map<nat, nat> {
    Claim(owner, a, n, a)
  }

  /** The `n` units from `a` on are in block `b`. */
  function Claim(owner: map<nat, nat>, a: nat, n: nat, b: nat): map<nat, nat> {
    owner + map u | u in Interval(a, n) :: b
  }

  lemma Claimed(owner: map<nat, nat>, a: nat, n: nat, b: nat)
    ensures Claim(owner, a, n, b).Keys == owner.Keys + Interval(a, n)
    ensures forall u: nat :: u in Claim(owner, a, n, b) ==>
      Claim(owner, a, n, b)[u] == if a <= u < a + n then b else owner[u]
  {
    hide Interval;
  }

  lemma SplitTiled(blocks: map<nat, nat>, owner: map<nat, nat>, b: nat, n: nat)
    requires Tiled(blocks, owner) && b in blocks && 0 < n < blocks[b]
    ensures Tiled(Split(blocks, b, n), SplitOwner(blocks, owner, b, n))
      && SplitOwner(blocks, owner, b, n).Keys == owner.Keys
    ensures b + blocks[b] - n !in blocks
  {
    hide Claim, Interval;
    var c := b + blocks[b] - n;
    assert In(owner, c, b);
    Claimed(owner, c, n, c);
    forall u | u in Interval(c, n)
      ensures u in owner
    {
      assert In(owner, u, b);
    }
    var blocks', owner' := Split(blocks, b, n), SplitOwner(blocks, owner, b, n);
    forall a, u: nat | a in blocks' && a <= u < a + blocks'[a]
      ensures In(owner', u, a)
    {
      assert In(owner, u, if a == c then b else a);
      assert c <= u < c + n ==> In(owner, u, b);
    }
    assert c in blocks ==> In(owner, c, c);
  }

  lemma JoinTiled(blocks: map<nat, nat>, owner: map<nat, nat>, b: nat)
    requires Tiled(blocks, owner) && b in blocks && b + blocks[b] in blocks
    ensures Tiled(Joined(blocks, b), JoinedOwner(blocks, owner, b)) && JoinedOwner(blocks, owner, b).Keys == owner.Keys
  {
    hide Claim, Interval;
    var c: nat := b + blocks[b];
    Claimed(owner, c, blocks[c], b);
    forall u | u in Interval(c, blocks[c])
      ensures u in owner
    {
      assert In(owner, u, c);
    }
    var blocks', owner' := Joined(blocks, b), JoinedOwner(blocks, owner, b);
    forall a, u: nat | a in blocks' && a <= u < a + blocks'[a]
      ensures In(owner', u, a)
    {
      assert In(owner, u, if a == b && u >= c then c else a);
      assert c <= u < c + blocks[c] ==> In(owner, u, c);
    }
  }

  lemma ObtainTiled(blocks: map<nat, nat>, owner: map<nat, nat>, a: nat, n: nat)
    requires Tiled(blocks, owner) && a > BASE && n > 0 && owner.Keys !! Interval(a, n)
    ensures a !in blocks && Tiled(blocks[a := n], Obtained(owner, a, n))
  {
    hide Claim, Interval;
    assert a in blocks ==> In(owner, a, a);
    assert a in Interval(a, n);
    Claimed(owner, a, n, a);
    var blocks', owner' := blocks[a := n], Obtained(owner, a, n);
    forall b, u: nat | b in blocks' && b <= u < b + blocks'[b]
      ensures In(owner', u, b)
    {
      if b != a {
        assert In(owner, u, b);
      } else {
        assert u in Interval(a, n);
      }
    }
  }

  /** The free ring: `ring[0]` is the base, the rest are free blocks by address, and no two touch. */
  ghost predicate Ascending(ring: seq<nat>) {
    && ring != [] && ring[0] == BASE
    && forall i, j :: 0 <= i < j < |ring| ==> ring[i] < ring[j]
  }

  ghost predicate FreeList(ring: seq<nat>, blocks: map<nat, nat>) {
    && Ascending(ring)
    && forall i :: 0 < i < |ring| ==> ring[i] in blocks
  }

  /** The free block at `i` ends before the next one begins. */
  ghost predicate Gap(ring: seq<nat>, blocks: map<nat, nat>, i: nat) {
    0 < i && i + 1 < |ring| ==> ring[i] in blocks && ring[i] + blocks[ring[i]] < ring[i + 1]
  }

  ghost predicate Gaps(ring: seq<nat>, blocks: map<nat, nat>) {
    forall i: nat :: Gap(ring, blocks, i)
  }

  /** No two free blocks touch. */
  lemma NoneTouch(ring: seq<nat>, blocks: map<nat, nat>, i: nat, j: nat)
    requires FreeList(ring, blocks) && Gaps(ring, blocks) && 0 < i < |ring| && 0 < j < |ring|
    ensures ring[i] + blocks[ring[i]] != ring[j] || blocks[ring[i]] == 0
  {
    assert Gap(ring, blocks, i);
  }

  function Next(ring: seq<nat>, k: nat): nat
    requires k < |ring|
  {
    if k + 1 < |ring| then ring[k + 1] else ring[0]
  }

  /** The blocks in use. */
  function Live(ring: seq<nat>, blocks: map<nat, nat>): map<nat, nat> {
    blocks - set b | b in ring
  }

  lemma LiveAt(ring: seq<nat>, blocks: map<nat, nat>, b: nat)
    ensures b in Live(ring, blocks) <==> b in blocks && b !in ring
    ensures b in Live(ring, blocks) ==> Live(ring, blocks)[b] == blocks[b]
  {
  }

  lemma InsertLive(ring: seq<nat>, r: seq<nat>, blocks: map<nat, nat>, b: nat)
    requires forall c :: c in r <==> c in ring || c == b
    ensures Live(r, blocks) == Live(ring, blocks) - {b}
  {
  }

  lemma JoinLive(ring: seq<nat>, r: seq<nat>, blocks: map<nat, nat>, b: nat)
    requires b in blocks && b + blocks[b] in blocks && b in ring && b + blocks[b] in ring && blocks[b] > 0
    requires forall c :: c in r <==> c in ring && c != b + blocks[b]
    ensures Live(r, Joined(blocks, b)) == Live(ring, blocks)
  {
  }

  lemma TakeLive(ring: seq<nat>, r: seq<nat>, blocks: map<nat, nat>, b: nat)
    requires b in blocks && b in ring && forall c :: c in r <==> c in ring && c != b
    ensures Live(r, blocks) == Live(ring, blocks)[b := blocks[b]]
  {
  }

  lemma SplitLive(ring: seq<nat>, blocks: map<nat, nat>, b: nat, n: nat)
    requires b in blocks && b in ring && 0 < n < blocks[b] && b + blocks[b] - n !in ring
    ensures Live(ring, Split(blocks, b, n)) == Live(ring, blocks)[b + blocks[b] - n := n]
  {
  }

  lemma GrowLive(ring: seq<nat>, blocks: map<nat, nat>, a: nat, n: nat)
    requires a !in ring
    ensures Live(ring, blocks[a := n]) == Live(ring, blocks)[a := n]
  {
  }

  /** The memory holds the size of every block. */
  ghost predicate Sized(mem: seq<Header>, blocks: map<nat, nat>) {
    && BASE < |mem| && mem[BASE].size == 0
    && forall b :: b in blocks ==> BASE < b < |mem| && b + blocks[b] <= |mem| && mem[b].size == blocks[b]
  }

  ghost predicate Link(mem: seq<Header>, ring: seq<nat>, k: nat) {
    k < |ring| ==> ring[k] < |mem| && mem[ring[k]].ptr == Next(ring, k)
  }

  /** The memory holds the links of the ring. */
  ghost predicate Links(mem: seq<Header>, ring: seq<nat>) {
    forall k: nat :: Link(mem, ring, k)
  }

  ghost predicate Linked(mem: seq<Header>, ring: seq<nat>, blocks: map<nat, nat>) {
    FreeList(ring, blocks) && Sized(mem, blocks) && Links(mem, ring)
  }

  function Inserted(ring: seq<nat>, t: nat, b: nat): (r: seq<nat>)
    requires t < |ring|
    ensures |r| == |ring| + 1
    ensures forall k :: 0 <= k < |r| ==> r[k] == if k <= t then ring[k] else if k == t + 1 then b else ring[k - 1]
  {
    ring[..t + 1] + [b] + ring[t + 1..]
  }

  lemma InsertedMembers(ring: seq<nat>, t: nat, b: nat)
    requires t < |ring|
    ensures forall c :: c in Inserted(ring, t, b) <==> c in ring || c == b
  {
    var r := Inserted(ring, t, b);
    forall c
      ensures c in r <==> c in ring || c == b
    {
      if c in ring {
        var k :| 0 <= k < |ring| && ring[k] == c;
        assert r[if k <= t then k else k + 1] == c;
      }
      assert r[t + 1] == b;
    }
  }

  lemma AscendingWithout(ring: seq<nat>, k: nat)
    requires Ascending(ring) && 0 < k < |ring|
    ensures Ascending(Without(ring, k))
    ensures forall c :: c in Without(ring, k) <==> c in ring && c != ring[k]
  {
    WithoutMembers(ring, k);
  }

  /** Where block `b` goes in the ring. */
  ghost predicate Slot(ring: seq<nat>, t: nat, b: nat) {
    t < |ring| && ring[t] < b && (t + 1 < |ring| ==> b < ring[t + 1])
  }

  function LinkIn(mem: seq<Header>, p: nat, b: nat): seq<Header>
    requires p < |mem| && b < |mem|
  {
    mem[b := Header(mem[p].ptr, mem[b].size)][p := Header(b, mem[p].size)]
  }

  lemma InsertLinked(mem: seq<Header>, ring: seq<nat>, blocks: map<nat, nat>, t: nat, b: nat)
    requires Linked(mem, ring, blocks) && Slot(ring, t, b) && b in blocks
    ensures ring[t] < |mem| && b < |mem|
    ensures Linked(LinkIn(mem, ring[t], b), Inserted(ring, t, b), blocks)
    ensures Live(Inserted(ring, t, b), blocks) == Live(ring, blocks) - {b}
  {
    hide Live;
    assert Link(mem, ring, t);
    var r, m := Inserted(ring, t, b), LinkIn(mem, ring[t], b);
    forall k: nat
      ensures Link(m, r, k)
    {
      InsertLink(mem, ring, t, b, k);
    }
    InsertedMembers(ring, t, b);
    InsertLive(ring, r, blocks, b);
  }

  lemma InsertLink(mem: seq<Header>, ring: seq<nat>, t: nat, b: nat, k: nat)
    requires Ascending(ring) && Links(mem, ring) && Slot(ring, t, b) && ring[t] < |mem| && b < |mem|
    ensures Link(LinkIn(mem, ring[t], b), Inserted(ring, t, b), k)
  {
    assert Link(mem, ring, t);
    if k < t {
      assert Link(mem, ring, k) && ring[k] < ring[t];
    } else if t + 1 < k <= |ring| {
      assert Link(mem, ring, k - 1) && ring[t] < ring[k - 1];
      assert t + 1 < k - 1 ==> ring[t + 1] < ring[k - 1];
    }
  }

  function Absorb(mem: seq<Header>, b: nat, c: nat): seq<Header>
    requires b < |mem| && c < |mem|
  {
    mem[b := Header(mem[c].ptr, mem[b].size + mem[c].size)]
  }

  lemma SizeAt(mem: seq<Header>, blocks: map<nat, nat>, b: nat)
    requires Sized(mem, blocks) && b in blocks
    ensures b < |mem| && mem[b].size == blocks[b]
  {
  }

  lemma JoinSized(mem: seq<Header>, blocks: map<nat, nat>, b: nat)
    requires Sized(mem, blocks) && b in blocks && b + blocks[b] in blocks && blocks[b] > 0
    ensures b < |mem| && b + blocks[b] < |mem| && Sized(Absorb(mem, b, b + blocks[b]), Joined(blocks, b))
  {
  }

  lemma JoinFreeList(ring: seq<nat>, blocks: map<nat, nat>, k: nat)
    requires FreeList(ring, blocks) && 0 < k && k + 1 < |ring| && ring[k] + blocks[ring[k]] == ring[k + 1]
    ensures FreeList(Without(ring, k + 1), Joined(blocks, ring[k]))
  {
    var r := Without(ring, k + 1);
    AscendingWithout(ring, k + 1);
    forall i | 0 < i < |r|
      ensures r[i] in Joined(blocks, ring[k])
    {
      assert r[i] in r;
    }
  }

  lemma JoinLinked(mem: seq<Header>, ring: seq<nat>, blocks: map<nat, nat>, k: nat)
    requires Linked(mem, ring, blocks) && 0 < k && k + 1 < |ring| && ring[k] + blocks[ring[k]] == ring[k + 1]
    ensures ring[k] < |mem| && ring[k + 1] < |mem|
    ensures Linked(Absorb(mem, ring[k], ring[k + 1]), Without(ring, k + 1), Joined(blocks, ring[k]))
    ensures Live(Without(ring, k + 1), Joined(blocks, ring[k])) == Live(ring, blocks)
  {
    hide Live, Joined, Sized;
    assert ring[k] < ring[k + 1];
    JoinSized(mem, blocks, ring[k]);
    JoinFreeList(ring, blocks, k);
    SizeAt(mem, blocks, ring[k]);
    SizeAt(mem, blocks, ring[k + 1]);
    var m, r := Absorb(mem, ring[k], ring[k + 1]), Without(ring, k + 1);
    forall j: nat
      ensures Link(m, r, j)
    {
      DropLink(mem, ring, k, j, blocks[ring[k]] + blocks[ring[k + 1]]);
    }
    AscendingWithout(ring, k + 1);
    JoinLive(ring, r, blocks, ring[k]);
  }

  /** Node `k` now points past node `k + 1`. */
  lemma DropLink(mem: seq<Header>, ring: seq<nat>, k: nat, j: nat, size: nat)
    requires Ascending(ring) && Links(mem, ring) && k + 1 < |ring|
    ensures ring[k] < |mem| && ring[k + 1] < |mem|
    ensures Link(mem[ring[k] := Header(mem[ring[k + 1]].ptr, size)], Without(ring, k + 1), j)
  {
    assert Link(mem, ring, k + 1) && Link(mem, ring, k);
    if j < k {
      assert Link(mem, ring, j) && ring[j] < ring[k];
    } else if k < j < |ring| - 1 {
      assert Link(mem, ring, j + 1) && ring[k] < ring[j + 1];
    }
  }

  lemma TakeLinked(mem: seq<Header>, ring: seq<nat>, blocks: map<nat, nat>, k: nat)
    requires Linked(mem, ring, blocks) && k + 1 < |ring|
    ensures ring[k] < |mem| && ring[k + 1] < |mem|
    ensures Linked(mem[ring[k] := Header(mem[ring[k + 1]].ptr, mem[ring[k]].size)], Without(ring, k + 1), blocks)
    ensures Live(Without(ring, k + 1), blocks) == Live(ring, blocks)[ring[k + 1] := blocks[ring[k + 1]]]
  {
    hide Live;
    assert Link(mem, ring, k + 1) && Link(mem, ring, k);
    var m, r := mem[ring[k] := Header(mem[ring[k + 1]].ptr, mem[ring[k]].size)], Without(ring, k + 1);
    forall j: nat
      ensures Link(m, r, j)
    {
      DropLink(mem, ring, k, j, mem[ring[k]].size);
    }
    AscendingWithout(ring, k + 1);
    TakeLive(ring, r, blocks, ring[k + 1]);
  }

  lemma SplitLinked(mem: seq<Header>, ring: seq<nat>, blocks: map<nat, nat>, owner: map<nat, nat>, k: nat, n: nat)
    requires Linked(mem, ring, blocks) && Tiled(blocks, owner) && 0 < k < |ring| && 0 < n < blocks[ring[k]]
    ensures var b := ring[k]; var c := b + blocks[b] - n;
      && b < |mem| && c < |mem|
      && Linked(mem[b := Header(mem[b].ptr, blocks[b] - n)][c := Header(mem[c].ptr, n)], ring, Split(blocks, b, n))
      && Live(ring, Split(blocks, b, n)) == Live(ring, blocks)[c := n] && c !in ring
  {
    hide Live;
    var b := ring[k];
    var c := b + blocks[b] - n;
    SplitTiled(blocks, owner, b, n);
    assert c !in ring;
    SplitLive(ring, blocks, b, n);
    var m := mem[b := Header(mem[b].ptr, blocks[b] - n)][c := Header(mem[c].ptr, n)];
    forall j: nat
      ensures Link(m, ring, j)
    {
      assert Link(mem, ring, j);
      assert j < |ring| ==> ring[j] in ring;
    }
  }

  /** The whole heap: tiled by blocks, the free ones in an address-ordered ring, none touching the next. */
  ghost predicate Heap(mem: seq<Header>, ring: seq<nat>, blocks: map<nat, nat>, owner: map<nat, nat>) {
    Tiled(blocks, owner) && Linked(mem, ring, blocks) && Gaps(ring, blocks)
  }

  /** Joining two neighbours leaves the other gaps alone, and the gap after the second becomes the gap after both. */
  lemma JoinGap(ring: seq<nat>, blocks: map<nat, nat>, k: nat, i: nat)
    requires FreeList(ring, blocks) && 0 < k && k + 1 < |ring| && ring[k] + blocks[ring[k]] == ring[k + 1]
    requires Gap(ring, blocks, if i < k then i else i + 1)
    ensures Gap(Without(ring, k + 1), Joined(blocks, ring[k]), i)
  {
    var r := Without(ring, k + 1);
    if 0 < i && i + 1 < |r| {
      assert i < k ==> ring[i] < ring[k];
      assert i > k ==> ring[k + 1] < ring[i + 1];
    }
  }

  lemma InsertGap(ring: seq<nat>, blocks: map<nat, nat>, t: nat, b: nat, i: nat)
    requires Gaps(ring, blocks) && Slot(ring, t, b) && i != t && i != t + 1
    ensures Gap(Inserted(ring, t, b), blocks, i)
  {
    assert Gap(ring, blocks, i);
    assert i > 0 ==> Gap(ring, blocks, i - 1);
  }

  /**
   * Linking a block in, without joining: the ring stays in order, and only the two gaps
   * beside the block are in doubt.
   */
  lemma Insertion(mem: seq<Header>, ring: seq<nat>, blocks: map<nat, nat>, owner: map<nat, nat>, t: nat, b: nat)
    requires Heap(mem, ring, blocks, owner) && Slot(ring, t, b) && b in blocks
    ensures ring[t] < |mem| && b < |mem|
    ensures var r := Inserted(ring, t, b);
      && Linked(LinkIn(mem, ring[t], b), r, blocks)
      && (forall i: nat :: i != t && i != t + 1 ==> Gap(r, blocks, i))
      && (t > 0 && ring[t] + blocks[ring[t]] != b ==> Gap(r, blocks, t))
      && (t + 1 < |ring| && b + blocks[b] != ring[t + 1] ==> Gap(r, blocks, t + 1))
      && Live(r, blocks) == Live(ring, blocks) - {b}
  {
    hide Live;
    InsertLinked(mem, ring, blocks, t, b);
    var r := Inserted(ring, t, b);
    forall i: nat | i != t && i != t + 1
      ensures Gap(r, blocks, i)
    {
      InsertGap(ring, blocks, t, b, i);
    }
    if t > 0 {
      Apart(blocks, owner, ring[t], b);
    }
    if t + 1 < |ring| {
      Apart(blocks, owner, b, ring[t + 1]);
    }
  }

  lemma Joining(mem: seq<Header>, ring: seq<nat>, blocks: map<nat, nat>, owner: map<nat, nat>, k: nat)
    requires Tiled(blocks, owner) && Linked(mem, ring, blocks)
    requires 0 < k && k + 1 < |ring| && ring[k] + blocks[ring[k]] == ring[k + 1]
    ensures ring[k] < |mem| && ring[k + 1] < |mem|
    ensures Tiled(Joined(blocks, ring[k]), JoinedOwner(blocks, owner, ring[k]))
    ensures Linked(Absorb(mem, ring[k], ring[k + 1]), Without(ring, k + 1), Joined(blocks, ring[k]))
    ensures Live(Without(ring, k + 1), Joined(blocks, ring[k])) == Live(ring, blocks)
    ensures JoinedOwner(blocks, owner, ring[k]).Keys == owner.Keys
  {
    hide Live;
    JoinTiled(blocks, owner, ring[k]);
    JoinLinked(mem, ring, blocks, k);
  }

  /** What the header of the freed block becomes: it takes in the next free block if that begins where it ends. */
  function Freed(mem: seq<Header>, p: nat, b: nat): Header
    requires p < |mem| && b < |mem| && mem[p].ptr < |mem|
  {
    var n := mem[p].ptr;
    if b + mem[b].size == n then Header(mem[n].ptr, mem[b].size + mem[n].size) else Header(n, mem[b].size)
  }

  /** The stores of free once the place in the ring is found. */
  function FreeStores(mem: seq<Header>, p: nat, b: nat): seq<Header>
    requires p < |mem| && b < |mem| && mem[p].ptr < |mem|
  {
    var x := Freed(mem, p, b);
    var m := mem[b := x];
    if p + m[p].size == b then m[p := Header(x.ptr, m[p].size + x.size)] else m[p := Header(b, m[p].size)]
  }

  /** The block is in the ring, joined to the next free block if they touch; only the gap before it is in doubt. */
  ghost predicate HalfFreed(mem: seq<Header>, ring: seq<nat>, blocks: map<nat, nat>, owner: map<nat, nat>, t: nat,
      b: nat) {
    && Tiled(blocks, owner) && Linked(mem, ring, blocks)
    && t + 1 < |ring| && ring[t + 1] == b
    && (forall i: nat :: i != t ==> Gap(ring, blocks, i))
    && (t > 0 && ring[t] + blocks[ring[t]] != b ==> Gap(ring, blocks, t))
  }

  lemma FreeingNext(mem: seq<Header>, ring: seq<nat>, blocks: map<nat, nat>, owner: map<nat, nat>, t: nat, b: nat)
    returns (r: seq<nat>, s: map<nat, nat>, o: map<nat, nat>)
    requires Heap(mem, ring, blocks, owner) && Slot(ring, t, b) && b in blocks
    ensures ring[t] < |mem| && b < |mem| && mem[ring[t]].ptr < |mem|
    ensures HalfFreed(mem[b := Freed(mem, ring[t], b)][ring[t] := Header(b, mem[ring[t]].size)], r, s, o, t, b)
    ensures r[t] == ring[t] && Live(r, s) == Live(ring, blocks) - {b} && o.Keys == owner.Keys
    ensures b in s && s[b] >= blocks[b]
  {
    hide Live, Gap, Tiled, Joined, JoinedOwner, Sized, Links, FreeList;
    Insertion(mem, ring, blocks, owner, t, b);
    NextInside(mem, ring, blocks, owner, t, b);
    r, s, o := Inserted(ring, t, b), blocks, owner;
    if b + mem[b].size == mem[ring[t]].ptr {
      var m := LinkIn(mem, ring[t], b);
      FreeingTouching(m, r, blocks, owner, t, b);
      r, s, o := Without(r, t + 2), Joined(blocks, b), JoinedOwner(blocks, owner, b);
      assert Absorb(m, b, ring[t + 1]) == mem[b := Freed(mem, ring[t], b)][ring[t] := Header(b, mem[ring[t]].size)];
    }
  }

  lemma FreeingTouching(mem: seq<Header>, ring: seq<nat>, blocks: map<nat, nat>, owner: map<nat, nat>, t: nat, b: nat)
    requires Tiled(blocks, owner) && Linked(mem, ring, blocks) && t + 2 < |ring| && ring[t + 1] == b
      && b + blocks[b] == ring[t + 2]
    requires forall i: nat :: i != t && i != t + 1 ==> Gap(ring, blocks, i)
    requires t > 0 && ring[t] + blocks[ring[t]] != b ==> Gap(ring, blocks, t)
    ensures b < |mem| && ring[t + 2] < |mem|
    ensures HalfFreed(Absorb(mem, b, ring[t + 2]), Without(ring, t + 2), Joined(blocks, b),
      JoinedOwner(blocks, owner, b), t, b)
    ensures b in Joined(blocks, b) && Joined(blocks, b)[b] >= blocks[b]
    ensures Live(Without(ring, t + 2), Joined(blocks, b)) == Live(ring, blocks)
      && JoinedOwner(blocks, owner, b).Keys == owner.Keys
  {
    hide Live, Gap, Tiled, JoinedOwner, Sized, Links;
    Joining(mem, ring, blocks, owner, t + 1);
    JoinKeeps(ring, blocks, t + 1);
    var r, s := Without(ring, t + 2), Joined(blocks, b);
    forall i: nat | i != t || (t > 0 && ring[t] + blocks[ring[t]] != b)
      ensures Gap(r, s, i)
    {
      JoinGap(ring, blocks, t + 1, i);
    }
  }

  lemma NextInside(mem: seq<Header>, ring: seq<nat>, blocks: map<nat, nat>, owner: map<nat, nat>, t: nat, b: nat)
    requires Heap(mem, ring, blocks, owner) && Slot(ring, t, b) && b in blocks
    ensures ring[t] < b < |mem| && mem[b].size == blocks[b]
      && (t > 0 ==> ring[t] in blocks && mem[ring[t]].size == blocks[ring[t]])
    ensures mem[ring[t]].ptr == Next(ring, t) < |mem|
    ensures b + mem[b].size == mem[ring[t]].ptr ==>
      t + 1 < |ring| && ring[t + 1] in blocks && mem[ring[t + 1]].size == blocks[ring[t + 1]] && ring[t + 1] != b
    ensures t + 1 == |ring| ==> Gap(Inserted(ring, t, b), blocks, t + 1)
    ensures t == 0 ==> mem[ring[t]].size == 0
  {
    assert Link(mem, ring, t);
  }

  lemma JoinKeeps(ring: seq<nat>, blocks: map<nat, nat>, k: nat)
    requires FreeList(ring, blocks) && 0 < k && k + 1 < |ring| && ring[k] + blocks[ring[k]] == ring[k + 1]
    ensures forall i :: 0 < i < k ==>
      ring[i] in blocks && ring[i] in Joined(blocks, ring[k]) && Joined(blocks, ring[k])[ring[i]] == blocks[ring[i]]
  {
  }

  /** The stores of free keep the heap, and make the block, and nothing else, free. */
  lemma Freeing(mem: seq<Header>, ring: seq<nat>, blocks: map<nat, nat>, owner: map<nat, nat>, t: nat, b: nat)
    returns (r: seq<nat>, s: map<nat, nat>, o: map<nat, nat>)
    requires Heap(mem, ring, blocks, owner) && Slot(ring, t, b) && b in blocks
    ensures ring[t] < |mem| && b < |mem| && mem[ring[t]].ptr < |mem|
    ensures Heap(FreeStores(mem, ring[t], b), r, s, o)
    ensures ring[t] in r && Live(r, s) == Live(ring, blocks) - {b} && o.Keys == owner.Keys
    ensures exists x :: x in r && x in s && s[x] >= blocks[b]
  {
    hide Live, Gap, Tiled, Joined, JoinedOwner, Sized, Links, FreeList;
    r, s, o := FreeingNext(mem, ring, blocks, owner, t, b);
    NextInside(mem, ring, blocks, owner, t, b);
    var p := ring[t];
    var m := mem[b := Freed(mem, p, b)][p := Header(b, mem[p].size)];
    FreeingPrev(m, r, s, o, t, b);
    if p + mem[p].size == b {
      assert FreeStores(mem, p, b) == Absorb(m, p, b);
      r, s, o := Without(r, t + 1), Joined(s, p), JoinedOwner(s, o, p);
      assert r[t] == p;
    } else {
      assert FreeStores(mem, p, b) == m;
      assert r[t + 1] == b;
    }
  }

  lemma FreeingPrev(mem: seq<Header>, ring: seq<nat>, blocks: map<nat, nat>, owner: map<nat, nat>, t: nat, b: nat)
    requires HalfFreed(mem, ring, blocks, owner, t, b)
    ensures ring[t] < b < |mem|
    ensures ring[t] + mem[ring[t]].size != b ==> Gaps(ring, blocks)
    ensures ring[t] + mem[ring[t]].size == b ==>
      && ring[t] in blocks && b in blocks && ring[t] + blocks[ring[t]] == b
      && ring[t] in Joined(blocks, ring[t]) && Joined(blocks, ring[t])[ring[t]] >= blocks[b]
      && Heap(Absorb(mem, ring[t], b), Without(ring, t + 1), Joined(blocks, ring[t]),
        JoinedOwner(blocks, owner, ring[t]))
      && Live(Without(ring, t + 1), Joined(blocks, ring[t])) == Live(ring, blocks)
      && JoinedOwner(blocks, owner, ring[t]).Keys == owner.Keys
  {
    hide Live;
    assert Gap(ring, blocks, 0);
    assert ring[t] < ring[t + 1];
    if ring[t] + mem[ring[t]].size == b {
      Joining(mem, ring, blocks, owner, t);
      var r, s := Without(ring, t + 1), Joined(blocks, ring[t]);
      forall i: nat
        ensures Gap(r, s, i)
      {
        JoinGap(ring, blocks, t, i);
      }
    }
  }

  /** malloc takes a free block of the very size out of the ring. */
  lemma Taking(mem: seq<Header>, ring: seq<nat>, blocks: map<nat, nat>, owner: map<nat, nat>, k: nat)
    requires Heap(mem, ring, blocks, owner) && k + 1 < |ring|
    ensures ring[k] < |mem| && ring[k + 1] < |mem|
    ensures Heap(mem[ring[k] := Header(mem[ring[k + 1]].ptr, mem[ring[k]].size)], Without(ring, k + 1), blocks, owner)
    ensures Live(Without(ring, k + 1), blocks) == Live(ring, blocks)[ring[k + 1] := blocks[ring[k + 1]]]
  {
    hide Live;
    TakeLinked(mem, ring, blocks, k);
    var r := Without(ring, k + 1);
    forall i: nat
      ensures Gap(r, blocks, i)
    {
      assert Gap(ring, blocks, i) && Gap(ring, blocks, i + 1);
      assert i == k && k + 2 < |ring| ==> ring[k + 1] < ring[k + 2];
    }
  }

  /** malloc cuts the tail off a larger one. */
  lemma Splitting(mem: seq<Header>, ring: seq<nat>, blocks: map<nat, nat>, owner: map<nat, nat>, k: nat, n: nat)
    requires Heap(mem, ring, blocks, owner) && 0 < k < |ring| && 0 < n < blocks[ring[k]]
    ensures var b := ring[k]; var c := b + blocks[b] - n;
      && b < |mem| && c < |mem|
      && Heap(mem[b := Header(mem[b].ptr, blocks[b] - n)][c := Header(mem[c].ptr, n)], ring, Split(blocks, b, n),
        SplitOwner(blocks, owner, b, n))
      && Live(ring, Split(blocks, b, n)) == Live(ring, blocks)[c := n] && c !in ring
      && SplitOwner(blocks, owner, b, n).Keys == owner.Keys
  {
    hide Live;
    SplitTiled(blocks, owner, ring[k], n);
    SplitLinked(mem, ring, blocks, owner, k, n);
    var s := Split(blocks, ring[k], n);
    forall i: nat
      ensures Gap(ring, s, i)
    {
      assert Gap(ring, blocks, i);
    }
  }

  /** morecore puts a header on a fresh area, which is then a block in use. */
  lemma Growing(mem: seq<Header>, ring: seq<nat>, blocks: map<nat, nat>, owner: map<nat, nat>, a: nat, n: nat)
    requires Heap(mem, ring, blocks, owner) && a > BASE && n > 0 && a + n <= |mem| && owner.Keys !! Interval(a, n)
    ensures Heap(mem[a := mem[a].(size := n)], ring, blocks[a := n], Obtained(owner, a, n))
    ensures a !in ring && Live(ring, blocks[a := n]) == Live(ring, blocks)[a := n]
  {
    hide Tiled, Interval, Obtained, Live;
    ObtainTiled(blocks, owner, a, n);
    assert a !in ring;
    GrowLive(ring, blocks, a, n);
    var m, s := mem[a := mem[a].(size := n)], blocks[a := n];
    forall k: nat
      ensures Link(m, ring, k) && Gap(ring, s, k)
    {
      assert Link(mem, ring, k) && Gap(ring, blocks, k);
      assert k < |ring| ==> ring[k] in ring;
    }
  }

  /** A program that writes inside its own blocks, past their headers, leaves the heap alone. */
  lemma OwnWrites(mem: seq<Header>, ring: seq<nat>, blocks: map<nat, nat>, owner: map<nat, nat>, b: nat, u: nat,
      h: Header)
    requires Heap(mem, ring, blocks, owner) && b in Live(ring, blocks) && b < u < b + blocks[b]
    ensures u < |mem| && Heap(mem[u := h], ring, blocks, owner)
  {
    assert In(owner, u, b);
    assert u in blocks ==> In(owner, u, u);
    var m := mem[u := h];
    forall k: nat
      ensures Link(m, ring, k)
    {
      assert Link(mem, ring, k);
    }
  }

  ghost function Some(s: set<nat>): (x: nat)
    requires s != {}
    ensures x in s
  {
    var x :| x in s;
    x
  }

  ghost function Total(blocks: map<nat, nat>): nat
    decreases |blocks|
  {
    if blocks == map[] then 0 else
      var b := Some(blocks.Keys);
      blocks[b] + Total(blocks - {b})
  }

  /** Free and used blocks together are exactly the units obtained from sbrk. */
  lemma {:induction false} UnitsConserved(blocks: map<nat, nat>, owner: map<nat, nat>)
    requires Tiled(blocks, owner)
    ensures Total(blocks) == |owner.Keys|
    decreases |blocks|
  {
    hide Interval, Tiled;
    if blocks == map[] {
      NothingTiled(owner);
    } else {
      var b := Some(blocks.Keys);
      var rest := owner - Interval(b, blocks[b]);
      RestTiled(blocks, owner, b);
      UnitsConserved(blocks - {b}, rest);
      IntervalSize(b, blocks[b]);
      assert owner.Keys == rest.Keys + Interval(b, blocks[b]);
    }
  }

  lemma NothingTiled(owner: map<nat, nat>)
    requires Tiled(map[], owner)
    ensures owner.Keys == {}
  {
  }

  lemma RestTiled(blocks: map<nat, nat>, owner: map<nat, nat>, b: nat)
    requires Tiled(blocks, owner) && b in blocks
    ensures Tiled(blocks - {b}, owner - Interval(b, blocks[b])) && Interval(b, blocks[b]) <= owner.Keys
  {
    hide Interval;
    var rest := owner - Interval(b, blocks[b]);
    forall c, u: nat | c in blocks - {b} && c <= u < c + blocks[c]
      ensures In(rest, u, c)
    {
      assert In(owner, u, c);
      assert u in Interval(b, blocks[b]) ==> In(owner, u, b);
    }
    forall u | u in Interval(b, blocks[b])
      ensures u in owner
    {
      assert In(owner, u, b);
    }
    forall u | u in rest
      ensures owner[u] != b
    {
      assert u !in Interval(b, blocks[b]);
    }
  }

  lemma {:induction false} IntervalSize(a: nat, n: nat)
    ensures |Interval(a, n)| == n
  {
    if n > 0 {
      var s, x := Interval(a, n - 1), a + n - 1;
      IntervalSize(a, n - 1);
      assert x !in s;
      assert Interval(a, n) == s + {x};
    }
  }
}
