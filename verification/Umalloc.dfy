/** umalloc.c: malloc and free over a circular list threaded through the free blocks themselves. */
module Umalloc {
  import opened Collections
  import opened HeapSpec
  import opened Options

  /** Unit `u` belongs to block `b` of those in use. */
  ghost predicate InUse(live: map<nat, nat>, b: nat, u: nat) {
    b in live && b <= u < b + live[b]
  }

  /** No unit of a block in use has changed. */
  ghost predicate Kept(m: seq<Header>, m': seq<Header>, live: map<nat, nat>) {
    |m| == |m'| && forall b: nat, u: nat :: InUse(live, b, u) && u < |m| ==> m'[u] == m[u]
  }

  lemma NotInUse(ring: seq<nat>, blocks: map<nat, nat>, owner: map<nat, nat>, x: nat, b: nat, u: nat)
    requires Tiled(blocks, owner) && (x == BASE || x in blocks) && InUse(Live(ring, blocks), b, u) && b != x
    ensures u != x
  {
    assert In(owner, u, b);
    assert x in blocks ==> In(owner, x, x);
  }

  lemma FreeKeeps(mem: seq<Header>, ring: seq<nat>, blocks: map<nat, nat>, owner: map<nat, nat>, t: nat, b: nat)
    requires Heap(mem, ring, blocks, owner) && Slot(ring, t, b) && b in blocks
    requires ring[t] < |mem| && b < |mem| && mem[ring[t]].ptr < |mem|
    ensures Kept(mem, FreeStores(mem, ring[t], b), Live(ring, blocks) - {b})
  {
    var m, live := FreeStores(mem, ring[t], b), Live(ring, blocks) - {b};
    forall c, u: nat | InUse(live, c, u) && u < |mem|
      ensures m[u] == mem[u]
    {
      assert InUse(Live(ring, blocks), c, u);
      NotInUse(ring, blocks, owner, b, c, u);
      NotInUse(ring, blocks, owner, ring[t], c, u);
    }
  }

  lemma GrowKeeps(mem: seq<Header>, ring: seq<nat>, blocks: map<nat, nat>, owner: map<nat, nat>, a: nat, n: nat)
    requires Tiled(blocks, owner) && a < |mem| && n > 0 && owner.Keys !! Interval(a, n)
    ensures Kept(mem, mem[a := mem[a].(size := n)], Live(ring, blocks)) && a !in Live(ring, blocks)
    ensures Obtained(owner, a, n).Keys == owner.Keys + Interval(a, n)
    ensures Live(ring, blocks)[a := n] - {a} == Live(ring, blocks)
  {
    hide Interval;
    var live := Live(ring, blocks);
    assert a in Interval(a, n);
    forall b: nat, u: nat | InUse(live, b, u)
      ensures u != a
    {
      assert In(owner, u, b);
    }
    assert a in blocks ==> In(owner, a, a);
  }

  lemma KeptSelf(m: seq<Header>, live: map<nat, nat>)
    ensures Kept(m, m, live)
  {
  }

  lemma KeptTwice(m: seq<Header>, m1: seq<Header>, m2: seq<Header>, live: map<nat, nat>)
    requires Kept(m, m1, live) && Kept(m1, m2, live)
    ensures Kept(m, m2, live)
  {
  }

  lemma {:induction false} SlotExists(ring: seq<nat>, b: nat) returns (t: nat)
    requires Ascending(ring) && b > BASE && b !in ring
    ensures Slot(ring, t, b)
  {
    t := |ring| - 1;
    while b < ring[t]
      invariant t < |ring| && (t + 1 < |ring| ==> b < ring[t + 1])
    {
      t := t - 1;
    }
  }

  lemma Greatest(ring: seq<nat>, t: nat, b: nat)
    requires Ascending(ring) && Slot(ring, t, b)
    ensures forall q :: q in ring && q < b ==> q <= ring[t]
  {
    forall q | q in ring && q < b
      ensures q <= ring[t]
    {
      var k :| 0 <= k < |ring| && ring[k] == q;
      if k < t {
        assert ring[k] < ring[t];
      }
    }
  }

  /** The test that ends free's search holds at the right place and nowhere else. */
  lemma SearchTest(mem: seq<Header>, ring: seq<nat>, t: nat, k: nat, b: nat)
    requires Ascending(ring) && Links(mem, ring) && Slot(ring, t, b) && k < |ring|
    ensures ring[k] < |mem| && mem[ring[k]].ptr == Next(ring, k)
    ensures k == t <==>
      (ring[k] < b < mem[ring[k]].ptr || (ring[k] >= mem[ring[k]].ptr && (b > ring[k] || b < mem[ring[k]].ptr)))
  {
    assert Link(mem, ring, k);
    assert k < t ==> ring[k + 1] <= ring[t];
    assert k > t ==> ring[t + 1] <= ring[k];
  }

  /** The place `i` steps round a ring of `n` from place `c`. */
  function Turn(n: nat, c: nat, i: nat): nat {
    if c + i < n then c + i else c + i - n
  }

  /** malloc has passed the `j` nodes after place `c` and found them too small. */
  ghost predicate Seen(mem: seq<Header>, ring: seq<nat>, c: nat, j: nat, n: nat) {
    forall i :: 0 < i <= j && Turn(|ring|, c, i) < |ring| ==>
      ring[Turn(|ring|, c, i)] < |mem| && mem[ring[Turn(|ring|, c, i)]].size < n
  }

  /** malloc's walk from node `start`, which is at place `c`, has passed `j` nodes and is between `prev` and `p`. */
  ghost predicate Walking(mem: seq<Header>, ring: seq<nat>, start: nat, c: nat, j: nat, n: nat, prev: nat, p: nat) {
    && c < |ring| && ring[c] == start && j < |ring| && Turn(|ring|, c, j) < |ring| && Turn(|ring|, c, j + 1) < |ring|
    && prev == ring[Turn(|ring|, c, j)] && p == ring[Turn(|ring|, c, j + 1)] && prev < |mem| && p < |mem|
    && Seen(mem, ring, c, j, n)
  }

  /** From node `start` on, `b` is the first node large enough and `prev` the one before it. */
  ghost predicate FirstFit(mem: seq<Header>, ring: seq<nat>, start: nat, n: nat, prev: nat, b: nat) {
    exists c: nat, j: nat :: Walking(mem, ring, start, c, j, n, prev, b) && mem[b].size >= n
  }

  lemma Around(mem: seq<Header>, ring: seq<nat>, c: nat, j: nat)
    requires Links(mem, ring) && c < |ring| && j < |ring|
    ensures Turn(|ring|, c, j) < |ring| && Turn(|ring|, c, j + 1) < |ring|
    ensures ring[Turn(|ring|, c, j)] < |mem| && ring[Turn(|ring|, c, j + 1)] < |mem|
    ensures mem[ring[Turn(|ring|, c, j)]].ptr == ring[Turn(|ring|, c, j + 1)]
  {
    assert Link(mem, ring, Turn(|ring|, c, j)) && Link(mem, ring, Turn(|ring|, c, j + 1));
  }

  lemma WalkStarts(mem: seq<Header>, ring: seq<nat>, blocks: map<nat, nat>, owner: map<nat, nat>, start: nat, n: nat)
      returns (c: nat)
    requires Heap(mem, ring, blocks, owner) && start in ring
    ensures start < |mem| && mem[start].ptr < |mem| && Walking(mem, ring, start, c, 0, n, start, mem[start].ptr)
  {
    c :| 0 <= c < |ring| && ring[c] == start;
    Around(mem, ring, c, 0);
  }

  /** A node large enough is a free block, not the base. */
  lemma Found(mem: seq<Header>, ring: seq<nat>, blocks: map<nat, nat>, owner: map<nat, nat>, start: nat, c: nat, j: nat,
      n: nat, prev: nat, p: nat)
    requires Heap(mem, ring, blocks, owner) && Walking(mem, ring, start, c, j, n, prev, p) && 0 < n <= mem[p].size
    ensures var k := Turn(|ring|, c, j); k + 1 < |ring| && ring[k] == prev && ring[k + 1] == p
    ensures p in ring && p in blocks && blocks[p] >= n && FirstFit(mem, ring, start, n, prev, p)
  {
  }

  /** A whole turn has passed exactly when the walk is back at its start, and then nothing fits. */
  lemma NotFound(mem: seq<Header>, ring: seq<nat>, blocks: map<nat, nat>, owner: map<nat, nat>, start: nat, c: nat,
      j: nat, n: nat, prev: nat, p: nat)
    requires Heap(mem, ring, blocks, owner) && Walking(mem, ring, start, c, j, n, prev, p) && mem[p].size < n
    ensures p == start ==> forall b :: b in ring && b in blocks ==> blocks[b] < n
    ensures p != start ==> j + 1 < |ring| && mem[p].ptr < |mem| && Walking(mem, ring, start, c, j + 1, n, p, mem[p].ptr)
  {
    assert Seen(mem, ring, c, j + 1, n);
    WholeTurn(ring, c, j);
    if j + 1 == |ring| {
      NothingFits(mem, ring, blocks, owner, c, n);
    } else {
      Around(mem, ring, c, j + 1);
    }
  }

  lemma WholeTurn(ring: seq<nat>, c: nat, j: nat)
    requires Ascending(ring) && c < |ring| && j < |ring|
    ensures Turn(|ring|, c, j + 1) < |ring| && (ring[Turn(|ring|, c, j + 1)] == ring[c] <==> j + 1 == |ring|)
  {
    var k := Turn(|ring|, c, j + 1);
    assert k < c ==> ring[k] < ring[c];
    assert c < k ==> ring[c] < ring[k];
  }

  lemma NothingFits(mem: seq<Header>, ring: seq<nat>, blocks: map<nat, nat>, owner: map<nat, nat>, c: nat, n: nat)
    requires Heap(mem, ring, blocks, owner) && c < |ring| && Seen(mem, ring, c, |ring|, n)
    ensures forall b :: b in ring && b in blocks ==> blocks[b] < n
  {
    forall b | b in ring && b in blocks
      ensures blocks[b] < n
    {
      var k :| 0 <= k < |ring| && ring[k] == b;
      assert Turn(|ring|, c, if k > c then k - c else k - c + |ring|) == k;
    }
  }

  lemma StartHeap(mem: seq<Header>)
    requires BASE < |mem|
    ensures Heap(mem[BASE := Header(BASE, 0)], [BASE], map[], map[])
      && Kept(mem, mem[BASE := Header(BASE, 0)], Live([BASE], map[]))
  {
  }

  lemma CarveFacts(mem: seq<Header>, ring: seq<nat>, blocks: map<nat, nat>, owner: map<nat, nat>, k: nat, h: Header)
    requires Heap(mem, ring, blocks, owner) && k + 1 < |ring|
    ensures ring[k] >= BASE && ring[k] < |mem| && ring[k + 1] in blocks && mem[ring[k + 1]].size == blocks[ring[k + 1]]
    ensures ring[k + 1] !in Live(ring, blocks) && ring[k + 1] + blocks[ring[k + 1]] <= |mem|
    ensures Kept(mem, mem[ring[k] := h], Live(ring, blocks))
  {
    assert Link(mem, ring, k);
    forall b: nat, u: nat | InUse(Live(ring, blocks), b, u)
      ensures u != ring[k]
    {
      NotInUse(ring, blocks, owner, ring[k], b, u);
    }
  }

  lemma SplitKeeps(mem: seq<Header>, ring: seq<nat>, blocks: map<nat, nat>, owner: map<nat, nat>, p: nat, n: nat,
      h: Header, h': Header)
    requires Tiled(blocks, owner) && p in blocks && p in ring && 0 < n < blocks[p] && p + blocks[p] <= |mem|
    ensures var q := p + blocks[p] - n;
      q !in Live(ring, blocks) && Kept(mem, mem[p := h][q := h'], Live(ring, blocks))
  {
    var q := p + blocks[p] - n;
    var live := Live(ring, blocks);
    assert In(owner, q, p);
    assert q in blocks ==> In(owner, q, q);
    forall b: nat, u: nat | InUse(live, b, u)
      ensures u != p && u != q
    {
      NotInUse(ring, blocks, owner, p, b, u);
      assert In(owner, u, b);
    }
  }

  class Allocator {
    const mem: array<Header>
    var freep: nat
    ghost var ring: seq<nat>          // the free list from the base, by address
    ghost var blocks: map<nat, nat>   // every block and its size
    ghost var owner: map<nat, nat>    // every unit obtained from sbrk and its block

    ghost predicate Ready()
      reads this, mem
    {
      freep in ring && Heap(mem[..], ring, blocks, owner)
    }

    ghost predicate Valid()
      reads this, mem
    {
      && BASE < mem.Length
      && if freep == NULL then ring == [BASE] && blocks == map[] && owner == map[] else Ready()
    }

    constructor (size: nat, h: Header)
      requires size > BASE
      ensures Valid() && freep == NULL && fresh(mem) && mem.Length == size && InService() == map[]
    {
      mem := new Header[size](_ => h);
      freep, ring, blocks, owner := NULL, [BASE], map[], map[];
    }

    ghost function InService(): map<nat, nat>
      reads this
    {
      Live(ring, blocks)
    }

    /** free's search for the neighbours of a block ends, at the one place where the block belongs. */
    method Search(bp: nat) returns (p: nat, ghost t: nat)
      requires Ready() && bp in blocks && bp !in ring
      ensures Slot(ring, t, bp) && p == ring[t] >= BASE
      ensures p in ring && p < bp && forall q :: q in ring && q < bp ==> q <= p
    {
      hide Tiled, Gaps, Links, Sized;
      AboveBase(blocks, owner, bp);
      ghost var target := SlotExists(ring, bp);
      ghost var k :| 0 <= k < |ring| && ring[k] == freep;
      p := freep;
      SearchTest(mem[..], ring, target, k, bp);
      while !(bp > p && bp < mem[p].ptr)
        invariant 0 <= k < |ring| && p == ring[k] && p < mem.Length && mem[p].ptr == Next(ring, k)
        invariant k == target <==> (p < bp < mem[p].ptr || (p >= mem[p].ptr && (bp > p || bp < mem[p].ptr)))
        decreases if k <= target then target - k else |ring| - k + target
      {
        if p >= mem[p].ptr && (bp > p || bp < mem[p].ptr) {
          break;
        }
        p := mem[p].ptr;
        k := if k + 1 < |ring| then k + 1 else 0;
        SearchTest(mem[..], ring, target, k, bp);
      }
      t := target;
      Greatest(ring, t, bp);
    }

    lemma AboveBase(blocks: map<nat, nat>, owner: map<nat, nat>, b: nat)
      requires Tiled(blocks, owner) && b in blocks
      ensures b > BASE
    {
    }

    method Free(ap: nat)
      requires Valid() && ap > 0 && ap - 1 in InService()
      modifies mem, this
      ensures Valid() && freep != NULL
      ensures InService() == old(InService()) - {ap - 1} && owner.Keys == old(owner.Keys)
      ensures Kept(old(mem[..]), mem[..], InService())
      ensures exists b :: b in ring && b in blocks && blocks[b] >= old(InService())[ap - 1]
    {
      hide Tiled, Gaps, Links, Sized, FreeList, Live, FreeStores;
      var bp := ap - 1;
      LiveAt(ring, blocks, bp);
      var p, t := Search(bp);
      ghost var r, s, o := Freeing(mem[..], ring, blocks, owner, t, bp);
      FreeKeeps(mem[..], ring, blocks, owner, t, bp);
      Store(p, bp);
      freep := p;
      ring, blocks, owner := r, s, o;
    }

    method Store(p: nat, bp: nat)
      requires p < bp < mem.Length && mem[p].ptr < mem.Length
      modifies mem
      ensures mem[..] == FreeStores(old(mem[..]), p, bp)
    {
      var n := mem[p].ptr;
      if bp + mem[bp].size == n {
        mem[bp] := mem[bp].(size := mem[bp].size + mem[n].size);
        mem[bp] := mem[bp].(ptr := mem[n].ptr);
      } else {
        mem[bp] := mem[bp].(ptr := n);
      }
      if p + mem[p].size == bp {
        mem[p] := mem[p].(size := mem[p].size + mem[bp].size);
        mem[p] := mem[p].(ptr := mem[bp].ptr);
      } else {
        mem[p] := mem[p].(ptr := bp);
      }
    }

    /** A fresh area that sbrk can hand out: units of this memory that were never handed out before. */
    ghost predicate Fresh(a: nat, n: nat)
      reads this
    {
      BASE < a && a + n <= mem.Length && owner.Keys !! Interval(a, n)
    }

    /** morecore: `core` is what sbrk answers. */
    method Morecore(nunits: nat, core: Option<nat>) returns (r: nat)
      requires Valid() && freep != NULL && nunits > 0
      requires core.Some? ==> Fresh(core.value, Area(nunits))
      modifies mem, this
      ensures Valid() && InService() == old(InService()) && Kept(old(mem[..]), mem[..], InService())
      ensures core.None? ==> r == NULL && unchanged(this) && unchanged(mem)
      ensures core.Some? ==>
        r == freep != NULL
        && owner.Keys == old(owner.Keys) + Interval(core.value, if nunits < 4096 then 4096 else nunits)
      ensures core.Some? ==> exists b :: b in ring && b in blocks && blocks[b] >= nunits
    {
      if core.None? {
        return NULL;
      }
      hide Tiled, Gaps, Links, Sized, FreeList, Live, Interval, Obtained;
      var hp, nu := core.value, Area(nunits);
      Growing(mem[..], ring, blocks, owner, hp, nu);
      GrowKeeps(mem[..], ring, blocks, owner, hp, nu);
      mem[hp] := mem[hp].(size := nu);
      blocks, owner := blocks[hp := nu], Obtained(owner, hp, nu);
      assert mem[..] == old(mem[..])[hp := old(mem[hp]).(size := nu)];
      ghost var before := mem[..];
      Free(hp + 1);
      KeptTwice(old(mem[..]), before, mem[..], InService());
      r := freep;
    }

    /** Some free block has that many units. */
    ghost predicate Fits(n: nat)
      reads this
    {
      exists b :: b in ring && b in blocks && blocks[b] >= n
    }

    /** malloc's end: take the block out of the ring, or cut the request off its tail. */
    method Carve(prevp: nat, p: nat, n: nat, ghost k: nat) returns (r: nat)
      requires Valid() && freep != NULL && k + 1 < |ring| && prevp == ring[k] && p == ring[k + 1]
      requires 0 < n && p < mem.Length && mem[p].size >= n && prevp < mem.Length
      modifies mem, this
      ensures Valid() && freep == prevp != NULL && r - 1 == p + old(mem[p]).size - n
      ensures r > 0 && r - 1 !in old(InService()) && InService() == old(InService())[r - 1 := n]
      ensures owner.Keys == old(owner.Keys) && Kept(old(mem[..]), mem[..], old(InService()))
    {
      hide Tiled, Gaps, Links, Live, Kept, Split, SplitOwner, Without, Sized, FreeList;
      CarveFacts(mem[..], ring, blocks, owner, k, Header(mem[p].ptr, mem[prevp].size));
      var q := p;
      if mem[p].size == n {
        Taking(mem[..], ring, blocks, owner, k);
        mem[prevp] := mem[prevp].(ptr := mem[p].ptr);
        assert mem[..] == old(mem[..])[prevp := Header(old(mem[p]).ptr, old(mem[prevp]).size)];
        ring := Without(ring, k + 1);
        assert ring[k] == prevp;
      } else {
        Splitting(mem[..], ring, blocks, owner, k + 1, n);
        ghost var cut := p + mem[p].size - n;
        SplitKeeps(mem[..], ring, blocks, owner, p, n, Header(mem[p].ptr, mem[p].size - n), Header(mem[cut].ptr, n));
        mem[p] := mem[p].(size := mem[p].size - n);
        q := p + mem[p].size;
        mem[q] := mem[q].(size := n);
        assert mem[..] == old(mem[..])[p := Header(old(mem[p]).ptr,
          old(mem[p]).size - n)][q := Header(old(mem[q]).ptr, n)];
        owner := SplitOwner(blocks, owner, p, n);
        blocks := Split(blocks, p, n);
      }
      freep := prevp;
      r := q + 1;
    }

    /** The base becomes a ring of its own. */
    method Start()
      requires Valid() && freep == NULL
      modifies mem, this`freep
      ensures Valid() && freep == BASE && Kept(old(mem[..]), mem[..], InService())
    {
      StartHeap(mem[..]);
      mem[BASE] := Header(BASE, 0);
      assert mem[..] == old(mem[..])[BASE := Header(BASE, 0)];
      freep := BASE;
    }

    /**
     * malloc; `core` is sbrk's answer, should it be asked: an area is obtained only when nothing fits, and at
     * most one. sbrk takes an int, so what it is asked for must be one. The units wrap around for the very
     * largest requests: the block then holds less than was asked for.
     */
    method Malloc(nbytes: nat, core: Option<nat>) returns (r: nat)
      requires Valid() && nbytes < UINT
      requires Fits(Units(nbytes)) || HEADER * Area(Units(nbytes)) < 0x8000_0000
      requires core.Some? ==> Fresh(core.value, Area(Units(nbytes)))
      modifies mem, this
      ensures Valid()
      ensures r == NULL <==> core.None? && !old(Fits(Units(nbytes)))
      ensures r == NULL ==> InService() == old(InService())
      ensures old(Fits(Units(nbytes))) ==>
        exists b: nat :: FirstFit(old(mem[..]), old(ring), old(freep), Units(nbytes), freep, b)
          && r - 1 == b + old(mem[..])[b].size - Units(nbytes)
      ensures r != NULL ==> r - 1 !in old(InService()) && InService() == old(InService())[r - 1 := Units(nbytes)]
      ensures r != NULL ==> (HEADER * (InService()[r - 1] - 1) >= nbytes <==> nbytes <= UINT - HEADER)
      ensures Kept(old(mem[..]), mem[..], old(InService()))
      ensures owner.Keys == if old(Fits(Units(nbytes))) || core.None? then old(owner.Keys)
                            else
                              old(owner.Keys)
                              + Interval(core.value, if Units(nbytes) < 4096 then 4096 else Units(nbytes))
    {
      hide Heap, Live, Interval, Units, Kept, Walking, FirstFit, Turn;
      var nunits := Units(nbytes);
      UnitsHold(nbytes);
      var prevp: nat := freep;
      KeptSelf(mem[..], InService());
      if prevp == NULL {
        Start();
        prevp := freep;
      }
      ghost var j: nat, grown := 0, false;
      ghost var c := WalkStarts(mem[..], ring, blocks, owner, freep, nunits);
      var p: nat := mem[prevp].ptr;
      while true
        invariant Valid() && freep != NULL && p < mem.Length && prevp < mem.Length
        invariant Walking(mem[..], ring, freep, c, j, nunits, prevp, p)
        invariant InService() == old(InService()) && Kept(old(mem[..]), mem[..], old(InService()))
        invariant !grown ==> ring == old(ring) && blocks == old(blocks) && owner == old(owner)
        invariant !grown && old(freep) != NULL ==> freep == old(freep) && mem[..] == old(mem[..])
        invariant grown ==>
          Fits(nunits) && core.Some? && !old(Fits(nunits))
          && owner.Keys == old(owner.Keys) + Interval(core.value, Area(nunits))
        decreases !grown, |ring| - j
      {
        if mem[p].size >= nunits {
          Found(mem[..], ring, blocks, owner, freep, c, j, nunits, prevp, p);
          ghost var before := mem[..];
          r := Carve(prevp, p, nunits, Turn(|ring|, c, j));
          KeptTwice(old(mem[..]), before, mem[..], old(InService()));
          return;
        }
        NotFound(mem[..], ring, blocks, owner, freep, c, j, nunits, prevp, p);
        if p == freep {
          if grown {
            assert false;
          }
          ghost var before := mem[..];
          p := Morecore(nunits, core);
          KeptTwice(old(mem[..]), before, mem[..], old(InService()));
          if p == NULL {
            return NULL;
          }
          grown, j := true, 0;
          c := WalkStarts(mem[..], ring, blocks, owner, freep, nunits);
        } else {
          j := j + 1;
        }
        prevp, p := p, mem[p].ptr;
      }
    }
  }

  /** morecore asks for no less than MINCORE units. */
  function Area(nunits: nat): nat {
    if nunits < MINCORE then MINCORE else nunits
  }
}
