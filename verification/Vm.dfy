/** kalloc.c and vm.c: the pool of pages and the address spaces made from it. */
module Vm {
  import opened Collections
  import opened VmSpec
  import opened VmCost

  const NULL: nat := 0
  const PGSIZE: nat := 4096
  const KERNBASE: nat := 0x8000_0000
  const PTE_W: nat := 2
  const PTE_U: nat := 4

  /** Free pages, pages in use by address spaces, and pages handed out otherwise: the pool, each page once. */
  ghost predicate Parted(pool: set<nat>, free: seq<nat>, used: set<nat>, held: set<nat>) {
    && Distinct(free) && NULL !in pool && used !! held && used <= pool && held <= pool
    && (forall f :: f in free ==> f in pool && f !in used && f !in held)
    && (forall f :: f in pool ==> f in free || f in used || f in held)
  }

  /** The link in the `k`-th free page. */
  ghost predicate LinkAt(next: seq<nat>, free: seq<nat>, k: nat) {
    k < |free| ==> free[k] < |next| && next[free[k]] == if k + 1 < |free| then free[k + 1] else NULL
  }

  ghost predicate Chain(next: seq<nat>, head: nat, free: seq<nat>) {
    head == (if free == [] then NULL else free[0]) && forall k: nat :: LinkAt(next, free, k)
  }

  lemma Popped(next: seq<nat>, free: seq<nat>, pool: set<nat>, used: set<nat>, held: set<nat>)
    requires Chain(next, if free == [] then NULL else free[0], free) && free != [] && Parted(pool, free, used, held)
    ensures free[0] < |next| && free[0] != NULL && Chain(next, next[free[0]], free[1..])
      && Parted(pool, free[1..], used, held + {free[0]})
    ensures free[0] !in used && free[0] !in held && free[0] in pool
  {
    assert LinkAt(next, free, 0);
    var rest := free[1..];
    forall k: nat
      ensures LinkAt(next, rest, k)
    {
      assert LinkAt(next, free, k + 1);
    }
    assert free[0] in free;
    forall f | f in rest
      ensures f in free && f != free[0]
    {
    }
    forall f | f in free
      ensures f == free[0] || f in rest
    {
      var k :| 0 <= k < |free| && free[k] == f;
      assert k > 0 ==> rest[k - 1] == f;
    }
  }

  lemma Pushed(next: seq<nat>, head: nat, free: seq<nat>, pool: set<nat>, used: set<nat>, held: set<nat>, f: nat)
    requires Chain(next, head, free) && Parted(pool, free, used, held) && f in held && f < |next|
    ensures Chain(next[f := head], f, [f] + free) && Parted(pool, [f] + free, used, held - {f})
  {
    var n, g := next[f := head], [f] + free;
    forall k: nat
      ensures LinkAt(n, g, k)
    {
      if k > 0 {
        assert LinkAt(next, free, k - 1);
        assert k - 1 < |free| ==> free[k - 1] in free;
      }
    }
  }

  class Kernel<T> {
    const next: array<nat>          // the link that a free page holds
    var freelist: nat
    var dirs: Tables
    var tabs: Tables
    var data: map<nat, T>           // the contents of user pages
    ghost var free: seq<nat>        // the free list
    ghost var held: set<nat>        // pages handed out and not part of an address space
    ghost var own: Owners
    ghost var pool: set<nat>

    ghost predicate Pooled()
      reads this, next
    {
      && (forall f :: f in pool ==> f < next.Length)
      && Chain(next[..], freelist, free) && Parted(pool, free, own.Keys, held)
    }

    ghost predicate Valid()
      reads this, next
    {
      Pooled() && Spaces(dirs, tabs, data.Keys, own)
    }

    constructor (npages: nat)
      ensures Valid() && pool == {} && fresh(next) && next.Length == npages && dirs == map[] && free == []
    {
      next := new nat[npages](_ => NULL);
      freelist, dirs, tabs, data := NULL, map[], map[], map[];
      free, held, own, pool := [], {}, map[], {};
    }

    /** kfree */
    method Kfree(f: nat)
      requires Pooled() && f in held
      modifies next, this`freelist, this`free, this`held
      ensures Pooled() && free == [f] + old(free) && held == old(held) - {f}
    {
      hide Chain, Parted, Spaces;
      HeldInPool(pool, free, own.Keys, held, f);
      Pushed(next[..], freelist, free, pool, own.Keys, held, f);
      next[f] := freelist;
      freelist := f;
      free, held := [f] + free, held - {f};
      assert next[..] == old(next[..])[f := old(freelist)];
    }

    /** kalloc: a page, or NULL exactly when none is free. */
    method Kalloc() returns (f: nat)
      requires Valid()
      modifies this`freelist, this`free, this`held
      ensures Valid()
      ensures f == NULL <==> old(free) == []
      ensures f == NULL ==> free == old(free) && held == old(held) && freelist == old(freelist)
      ensures f != NULL ==>
        f == old(free)[0] && free == old(free)[1..] && held == old(held) + {f} && f !in own && f !in old(held)
    {
      hide Spaces, LinkAt;
      f := freelist;
      if free != [] {
        Popped(next[..], free, pool, own.Keys, held);
      }
      if f != NULL {
        freelist := next[f];
        held := held + {f};
        free := free[1..];
      }
    }

    /** freerange: the whole pages between two page numbers join the pool. */
    method FreeRange(lo: nat, hi: nat)
      requires Valid() && 0 < lo && hi <= next.Length && forall f :: lo <= f < hi ==> f !in pool
      modifies this, next
      ensures Valid() && held == old(held) && own == old(own) && dirs == old(dirs) && tabs == old(tabs)
        && data == old(data)
      ensures forall f: nat :: f in pool <==> f in old(pool) || lo <= f < hi
      ensures |free| == |old(free)| + if lo < hi then hi - lo else 0
    {
      hide Spaces, Chain;
      var p := lo;
      while p < hi
        invariant lo <= p && (lo <= hi ==> p <= hi) && (lo > hi ==> p == lo) && Valid() && held == old(held)
          && own == old(own) && dirs == old(dirs) && tabs == old(tabs) && data == old(data)
        invariant forall f: nat :: f in pool <==> f in old(pool) || lo <= f < p
        invariant |free| == |old(free)| + p - lo
      {
        Joins(pool, free, own.Keys, held, p);
        pool := pool + {p};
        held := held + {p};
        Kfree(p);
        assert held == old(held);
        p := p + 1;
      }
    }

    /** walkpgdir: whether page `p` has an entry, if need be and can be after a table is made for it. */
    method WalkPgdir(d: nat, p: nat, alloc: bool) returns (ok: bool)
      requires Valid() && d in dirs && p < N * N
      modifies this
      ensures Valid() && SameWalks(old(dirs), old(tabs), dirs, tabs) && data == old(data) && held == old(held)
        && pool == old(pool)
      ensures d in dirs && dirs == old(dirs)[d := dirs[d]] && (ok <==> Slot(dirs, d, p / N).Entry?)
      ensures !alloc || !ok ==>
        dirs == old(dirs) && tabs == old(tabs) && own == old(own) && free == old(free) && freelist == old(freelist)
      ensures ok <==> p / N in old(Present(dirs, d)) || (alloc && old(free) != [])
      ensures ok ==> Present(dirs, d) == old(Present(dirs, d)) + {p / N}
      ensures |free| == |old(free)| - if ok && p / N !in old(Present(dirs, d)) then 1 else 0
    {
      hide Spaces, Chain, Parted, SameWalks;
      SlotIn(dirs, tabs, data.Keys, own, d, p / N);
      SameSelf(dirs, tabs);
      if dirs[d][p / N].Entry? {
        return true;
      }
      if !alloc {
        return false;
      }
      var f := Kalloc();
      if f == NULL {
        return false;
      }
      AddTable(d, p / N, f);
      assert held == old(held);
      ok := true;
    }

    /** The page `f` becomes the table of slot `i`. */
    method AddTable(d: nat, i: nat, f: nat)
      requires Valid() && d in dirs && i < N && |dirs[d]| == N && dirs[d][i].None? && f in held
      modifies this`dirs, this`tabs, this`own, this`held
      ensures Valid() && SameWalks(old(dirs), old(tabs), dirs, tabs) && held == old(held) - {f}
      ensures d in dirs && dirs == old(dirs)[d := dirs[d]] && Present(dirs, d) == old(Present(dirs, d)) + {i}
    {
      hide Spaces, Chain, Parted, SameWalks;
      HeldNotOwned(pool, free, own.Keys, held, f);
      TableAdded(dirs, tabs, data.Keys, own, d, i, f, PTE_W + PTE_U);
      Taken(pool, free, own.Keys, held, f);
      tabs := tabs[f := seq(N, _ => None)];
      dirs := dirs[d := dirs[d][i := Entry(f, PTE_W + PTE_U)]];
      own := own[f := Tab(d, i)];
      held := held - {f};
      assert own.Keys == old(own).Keys + {f};
    }

    /** mappages for one page of user memory: the page `f` with the contents that were put in it. */
    method MapPage(d: nat, p: nat, f: nat, flags: nat, x: T) returns (ok: bool)
      requires Valid() && d in dirs && p < USER && f in held && Walk(dirs, tabs, d, p).None?
      modifies this
      ensures Valid() && d in dirs && dirs == old(dirs)[d := dirs[d]] && pool == old(pool)
      ensures !ok ==> SameWalks(old(dirs), old(tabs), dirs, tabs) && data == old(data) && held == old(held)
      ensures ok ==> f !in old(data) && data == old(data)[f := x] && held == old(held) - {f}
      ensures ok ==>
        forall e: nat, q: nat ::
          Walk(dirs, tabs, e, q) == if e == d && q == p then Entry(f, flags) else old(Walk(dirs, tabs, e, q))
      ensures ok <==> p / N in old(Present(dirs, d)) || old(free) != []
      ensures ok ==> Present(dirs, d) == old(Present(dirs, d)) + {p / N}
      ensures |free| == |old(free)| - if ok && p / N !in old(Present(dirs, d)) then 1 else 0
    {
      hide Spaces, Chain, Parted, Walk, Slot;
      ok := WalkPgdir(d, p, true);
      if ok {
        AddPage(d, p, f, flags, x);
      }
    }

    /** The page `f` becomes page `p` of the space. */
    method AddPage(d: nat, p: nat, f: nat, flags: nat, x: T)
      requires Valid() && p < USER && f in held && p / N in Present(dirs, d) && Walk(dirs, tabs, d, p).None?
      modifies this`tabs, this`own, this`held, this`data
      ensures Valid() && f !in old(data) && data == old(data)[f := x] && held == old(held) - {f}
      ensures forall e: nat, q: nat ::
        Walk(dirs, tabs, e, q) == if e == d && q == p then Entry(f, flags) else old(Walk(dirs, tabs, e, q))
    {
      hide Spaces, Chain, Parted, SetEntry, Walk, Slot, TabsOwned;
      FactsAt(dirs, tabs, data.Keys, own, d, p);
      HeldNotOwned(pool, free, own.Keys, held, f);
      DataOwned(dirs, tabs, data.Keys, own);
      PageMapped(dirs, tabs, data.Keys, own, d, p, f, flags);
      EntrySets(dirs, tabs, own, d, p, Entry(f, flags));
      Taken(pool, free, own.Keys, held, f);
      tabs := SetEntry(dirs, tabs, d, p, Entry(f, flags));
      own := own[f := User(d, p)];
      held := held - {f};
      data := data[f := x];
      assert own.Keys == old(own).Keys + {f} && data.Keys == old(data).Keys + {f};
    }

    /** Take one page away from a user space, if it is there. */
    method UnmapPage(d: nat, p: nat)
      requires Valid() && d in dirs && p < USER && Slot(dirs, d, p / N).Entry? && Walk(dirs, tabs, d, p).Entry?
      modifies this, next
      ensures Valid() && dirs == old(dirs) && held == old(held) && pool == old(pool) && tabs.Keys == old(tabs).Keys
      ensures data == old(data) - {old(Walk(dirs, tabs, d, p)).frame}
      ensures forall e: nat, q: nat ::
        Walk(dirs, tabs, e, q) == if e == d && q == p then None else old(Walk(dirs, tabs, e, q))
    {
      hide Spaces, Chain, Parted, SetEntry, Walk, Slot, TabsOwned;
      FactsAt(dirs, tabs, data.Keys, own, d, p);
      PageUnmapped(dirs, tabs, data.Keys, own, d, p);
      EntrySets(dirs, tabs, own, d, p, None);
      var f := Walk(dirs, tabs, d, p).frame;
      Given(pool, free, own.Keys, held, f);
      tabs := SetEntry(dirs, tabs, d, p, None);
      held := held + {f};
      own := own - {f};
      data := data - {f};
      assert own.Keys == old(own).Keys - {f} && data.Keys == old(data).Keys - {f};
      Kfree(f);
      assert held == old(held);
    }

    /**
     * deallocuvm between two sizes in bytes. Missing tables are skipped a whole directory slot at a time, and
     * still every page of the range is gone afterwards, and no other page of any space has changed.
     */
    method Deallocuvm(d: nat, oldsz: nat, newsz: nat) returns (r: nat)
      requires Valid() && d in dirs && oldsz <= KERNBASE
      modifies this, next
      ensures r == if newsz >= oldsz then oldsz else newsz
      ensures Valid() && dirs == old(dirs) && held == old(held) && pool == old(pool) && tabs.Keys == old(tabs).Keys
      ensures forall f :: f in data ==> f in old(data) && data[f] == old(data)[f]
      ensures forall e: nat, q: nat ::
        Walk(dirs, tabs, e, q) ==
        if e == d && PageUp(newsz) <= q < PageUp(oldsz) then None else old(Walk(dirs, tabs, e, q))
    {
      hide Spaces, Chain, Parted, Walk;
      if newsz >= oldsz {
        return oldsz;
      }
      var a := PageUp(newsz);
      while a * PGSIZE < oldsz
        invariant PageUp(newsz) <= a && Valid() && dirs == old(dirs) && held == old(held) && pool == old(pool)
          && tabs.Keys == old(tabs).Keys
        invariant forall f :: f in data ==> f in old(data) && data[f] == old(data)[f]
        invariant forall e: nat, q: nat :: Walk(dirs, tabs, e, q) == if e == d && PageUp(newsz) <= q < a
          && q < PageUp(oldsz) then None else old(Walk(dirs, tabs, e, q))
      {
        if Slot(dirs, d, a / N).None? {
          Skipped(dirs, tabs, d, a);
          a := (a / N + 1) * N - 1;
        } else if Walk(dirs, tabs, d, a).Entry? {
          UnmapPage(d, a);
        }
        a := a + 1;
      }
      r := newsz;
    }

    /** allocuvm's way out of a failure: deallocuvm over the whole range. */
    method Undo(ghost d0: Tables, ghost t0: Tables, ghost m0: map<nat, T>, ghost o0: Owners, d: nat, oldsz: nat,
        newsz: nat, ghost a: nat, ghost zero: T)
      requires Valid() && d in dirs && oldsz <= newsz < KERNBASE && Spaces(d0, t0, m0.Keys, o0)
      requires a <= PageUp(newsz) && Added(d0, t0, m0, dirs, tabs, data, d, PageUp(oldsz), a, zero)
      modifies this, next
      ensures Valid() && dirs == old(dirs) && held == old(held) && pool == old(pool)
      ensures Emptied(d0, t0, m0, dirs, tabs, data, d, PageUp(oldsz), PageUp(newsz))
      ensures Unoccupied(d0, t0, d, PageUp(oldsz), PageUp(newsz)) ==> SameWalks(d0, t0, dirs, tabs) && data == m0
    {
      hide Spaces, Chain, Parted, Walk;
      ghost var m := data;
      var _ := Deallocuvm(d, newsz, oldsz);
      DataWithin(dirs, tabs, data.Keys, own, d0, t0, m0.Keys, o0);
      if Unoccupied(d0, t0, d, PageUp(oldsz), PageUp(newsz)) {
        SameData(d0, t0, m0.Keys, o0, dirs, tabs, data.Keys, own);
      }
      forall f | f in data
        ensures f in m0 && data[f] == m0[f]
      {
        assert f in m0 && m[f] == m0[f];
      }
    }

    /**
     * allocuvm: fresh zeroed pages from one size to another, exactly if no page of the range is mapped and there are
     * pages enough for them and the missing tables. On failure the whole range is unmapped: every mapping is as it
     * was exactly if no page of the range was mapped. A page that was is a panic if there are pages enough to get
     * to it.
     */
    method Allocuvm(d: nat, oldsz: nat, newsz: nat, zero: T) returns (r: nat, ghost ok: bool, panic: bool)
      requires Valid() && d in dirs
      modifies this, next
      ensures !panic ==> r == if !ok then 0 else if newsz < oldsz then oldsz else newsz
      ensures Valid() && d in dirs && dirs == old(dirs)[d := dirs[d]] && pool == old(pool)
        && (!panic ==> held == old(held))
      ensures newsz >= KERNBASE ==> !panic && !ok && SameWalks(old(dirs), old(tabs), dirs, tabs) && data == old(data)
      ensures panic ==> !ok && old(!Unoccupied(dirs, tabs, d, PageUp(oldsz), PageUp(newsz)))
      ensures !panic && !ok && newsz < KERNBASE ==>
        && Emptied(old(dirs), old(tabs), old(data), dirs, tabs, data, d, PageUp(oldsz), PageUp(newsz))
        && (SameWalks(old(dirs), old(tabs), dirs, tabs) <==>
          old(Unoccupied(dirs, tabs, d, PageUp(oldsz), PageUp(newsz))))
        && (old(Unoccupied(dirs, tabs, d, PageUp(oldsz), PageUp(newsz))) ==> data == old(data))
      ensures ok ==> old(Unoccupied(dirs, tabs, d, PageUp(oldsz), PageUp(newsz)))
      ensures ok ==> Added(old(dirs), old(tabs), old(data), dirs, tabs, data, d, PageUp(oldsz), PageUp(newsz), zero)
      ensures oldsz <= newsz < KERNBASE ==>
        var lo, hi, present := PageUp(oldsz), PageUp(newsz), old(Present(dirs, d));
        var first := old(FirstTaken(dirs, tabs, d, lo, hi));
        && (ok <==> first == hi && |old(free)| >= Need(present, lo, hi))
        && (panic <==> first < hi && |old(free)| > Need(present, lo, first))
        && (ok ==> |free| == |old(free)| - Need(present, lo, hi) && Present(dirs, d) == present + SlotsOf(lo, hi))
    {
      hide Spaces, Chain, Parted, Walk, Added, SameWalks, Emptied, Unoccupied, Need, SlotsOf, Present, FirstTaken;
      panic := false;
      ghost var lo, hi, present := PageUp(oldsz), PageUp(newsz), Present(dirs, d);
      ghost var first := FirstTaken(dirs, tabs, d, lo, hi);
      NeedNothing(present, lo);
      AddedNone(dirs, tabs, data, d, lo, hi, zero);
      SameSelf(dirs, tabs);
      NothingTaken(dirs, tabs, d, lo, hi);
      if newsz >= KERNBASE {
        return 0, false, false;
      }
      if newsz < oldsz {
        return oldsz, true, false;
      }
      var a := PageUp(oldsz);
      while a * PGSIZE < newsz
        invariant lo <= a <= hi && Valid() && d in dirs && dirs == old(dirs)[d := dirs[d]] && held == old(held)
          && pool == old(pool)
        invariant Added(old(dirs), old(tabs), old(data), dirs, tabs, data, d, lo, a, zero)
          && Unoccupied(old(dirs), old(tabs), d, lo, a)
        invariant a <= first && |free| == |old(free)| - Need(present, lo, a)
          && Present(dirs, d) == present + SlotsOf(lo, a)
      {
        ghost var g, t, m := dirs, tabs, data;
        NeedStep(present, lo, a);
        NeedGrows(present, lo, a, first);
        NeedGrows(present, lo, a + 1, hi);
        FirstIs(old(dirs), old(tabs), d, lo, a, hi);
        AddedFree(old(dirs), old(tabs), old(data), dirs, tabs, data, d, lo, a, zero);
        var mem := Kalloc();
        if mem == NULL {
          Undo(old(dirs), old(tabs), old(data), old(own), d, oldsz, newsz, a, zero);
          EmptiedSame(old(dirs), old(tabs), old(data), dirs, tabs, data, d, lo, hi);
          return 0, false, false;
        }
        OneMore(old(dirs), old(tabs), d, lo, a, hi);
        if Walk(dirs, tabs, d, a).Entry? {  // mappages finds the page present
          return 0, false, true;
        }
        var done := MapPage(d, a, mem, PTE_W + PTE_U, zero);
        if !done {
          AddedSame(old(dirs), old(tabs), old(data), g, t, dirs, tabs, data, d, lo, a, zero);
          Undo(old(dirs), old(tabs), old(data), old(own), d, oldsz, newsz, a, zero);
          EmptiedSame(old(dirs), old(tabs), old(data), dirs, tabs, data, d, lo, hi);
          Kfree(mem);
          assert held == old(held);
          return 0, false, false;
        }
        assert held == old(held);
        AddedOne(old(dirs), old(tabs), old(data), g, t, m, dirs, tabs, data, d, lo, a, zero, mem);
        a := a + 1;
      }
      FirstIs(old(dirs), old(tabs), d, lo, a, hi);
      r, ok := newsz, true;
    }

    /** The end of freevm: the tables and the directory of a space with no user pages left. */
    method FreeTables(d: nat)
      requires Valid() && d in dirs && forall p: nat :: p < USER ==> Walk(dirs, tabs, d, p).None?
      modifies this, next
      ensures Valid() && dirs == old(dirs) - {d} && data == old(data) && held == old(held) && pool == old(pool)
      ensures forall e: nat, p: nat :: e != d ==> Walk(dirs, tabs, e, p) == old(Walk(dirs, tabs, e, p))
    {
      hide Spaces, Chain, Parted, Walk;
      SlotIn(dirs, tabs, data.Keys, own, d, 0);
      ghost var g: Tables := dirs;
      var i := 0;
      while i < N
        invariant i <= N && Pooled() && Spaces(g, tabs, data.Keys, own) && held == old(held) && pool == old(pool)
        invariant dirs == old(dirs) && data == old(data) && d in g && g - {d} == dirs - {d} && |g[d]| == |dirs[d]| == N
        invariant (forall j :: 0 <= j < i ==> g[d][j].None?) && (forall j :: i <= j < N ==> g[d][j] == dirs[d][j])
        invariant forall p: nat :: p < USER ==> Walk(g, tabs, d, p).None?
        invariant forall e: nat, p: nat :: e != d ==> Walk(g, tabs, e, p) == old(Walk(dirs, tabs, e, p))
      {
        if dirs[d][i].Entry? {
          TableDropped(g, tabs, data.Keys, own, d, i);
          FreeTable(dirs[d][i].frame);
          g := g[d := g[d][i := None]];
        }
        i := i + 1;
      }
      DirDropped(g, tabs, data.Keys, own, d);
      Given(pool, free, own.Keys, held, d);
      dirs := dirs - {d};
      assert (own - {d}).Keys == own.Keys - {d};
      own, held := own - {d}, held + {d};
      Kfree(d);
      assert held == old(held);
    }

    method FreeTable(t: nat)
      requires Pooled() && t in own
      modifies next, this`freelist, this`free, this`held, this`own, this`tabs
      ensures Pooled() && held == old(held) && own == old(own) - {t} && tabs == old(tabs) - {t}
    {
      hide Chain, Parted;
      Given(pool, free, own.Keys, held, t);
      tabs := tabs - {t};
      assert (own - {t}).Keys == own.Keys - {t};
      own, held := own - {t}, held + {t};
      Kfree(t);
      assert held == old(held);
    }

    /** freevm: every page of the space is free again, and every other page is where it was. */
    method Freevm(d: nat)
      requires Valid() && d in dirs
      modifies this, next
      ensures Valid() && dirs == old(dirs) - {d} && held == old(held) && pool == old(pool)
      ensures forall e: nat, p: nat :: e != d ==> Walk(dirs, tabs, e, p) == old(Walk(dirs, tabs, e, p))
      ensures forall f :: f in data ==> f in old(data) && data[f] == old(data)[f]
      ensures forall f :: f in old(own) ==> if Of(old(own)[f], f, d) then f in free else Owned(own, f, old(own)[f])
    {
      hide Spaces, Chain, Parted, Walk, Of;
      var _ := Deallocuvm(d, KERNBASE, 0);
      FreeTables(d);
      Returned(old(dirs), old(tabs), old(data).Keys, old(own), dirs, tabs, data.Keys, own, d);
      forall f | f in old(own) && Of(old(own)[f], f, d)
        ensures f in free
      {
        NotElsewhere(pool, old(free), old(own).Keys, free, own.Keys, held, f);
      }
    }

    /** mappages for a range of the kernel's part. */
    method MapRange(d: nat, r: Range) returns (ok: bool)
      requires Valid() && d in dirs && r.InKernel() && forall q: nat :: r.Has(q) ==> Walk(dirs, tabs, d, q).None?
      modifies this
      ensures Valid() && d in dirs && dirs == old(dirs)[d := dirs[d]] && data == old(data) && held == old(held)
        && pool == old(pool)
      ensures forall e: nat, q: nat :: !(e == d && r.Has(q)) ==> Walk(dirs, tabs, e, q) == old(Walk(dirs, tabs, e, q))
      ensures ok ==> forall q: nat :: r.Has(q) ==> Walk(dirs, tabs, d, q) == Entry(r.phys + (q - r.start), r.perm)
      ensures ok <==> |old(free)| >= Missing(r.Slots(), old(Present(dirs, d)))
      ensures ok ==> |free| == |old(free)| - Missing(r.Slots(), old(Present(dirs, d)))
      ensures ok ==> Present(dirs, d) == old(Present(dirs, d)) + r.Slots()
    {
      hide Spaces, Chain, Parted, Walk, Missing, SlotsOf, Present;
      ghost var present := Present(dirs, d);
      MissingNone(present, r.start);
      var k := 0;
      while k < r.count
        invariant k <= r.count && Valid() && d in dirs && dirs == old(dirs)[d := dirs[d]] && data == old(data)
          && held == old(held) && pool == old(pool)
        invariant forall e: nat, q: nat :: Walk(dirs, tabs, e, q) == if e == d && r.Has(q)
          && q < r.start + k then r.EntryFor(q) else old(Walk(dirs, tabs, e, q))
        invariant |free| == |old(free)| - Missing(SlotsOf(r.start, r.start + k), present)
        invariant Present(dirs, d) == present + SlotsOf(r.start, r.start + k)
      {
        ghost var p := r.start + k;
        SlotsStep(r.start, p);
        MissingMore(SlotsOf(r.start, p), present, p / N);
        SlotsGrow(r.start, p + 1, r.start + r.count);
        MissingSubset(SlotsOf(r.start, p + 1), r.Slots(), present);
        ok := MapKernel(d, r.start + k, Entry(r.phys + k, r.perm));
        if !ok {
          return;
        }
        k := k + 1;
      }
      ok := true;
    }

    method MapKernel(d: nat, p: nat, x: Entry) returns (ok: bool)
      requires Valid() && d in dirs && USER <= p < N * N && Walk(dirs, tabs, d, p).None?
      modifies this
      ensures Valid() && d in dirs && dirs == old(dirs)[d := dirs[d]] && data == old(data) && held == old(held)
        && pool == old(pool)
      ensures forall e: nat, q: nat ::
        Walk(dirs, tabs, e, q) == if ok && e == d && q == p then x else old(Walk(dirs, tabs, e, q))
      ensures ok <==> p / N in old(Present(dirs, d)) || old(free) != []
      ensures ok ==> Present(dirs, d) == old(Present(dirs, d)) + {p / N}
      ensures |free| == |old(free)| - if ok && p / N !in old(Present(dirs, d)) then 1 else 0
    {
      hide Spaces, Chain, Parted, SetEntry, Walk, Slot, TabsOwned;
      ok := WalkPgdir(d, p, true);
      if ok {
        FactsAt(dirs, tabs, data.Keys, own, d, p);
        KernelMapped(dirs, tabs, data.Keys, own, d, p, x);
        EntrySets(dirs, tabs, own, d, p, x);
        tabs := SetEntry(dirs, tabs, d, p, x);
      }
    }

    /** A new directory, empty. */
    method NewDir() returns (d: nat)
      requires Valid()
      modifies this
      ensures Valid() && data == old(data) && held == old(held) && pool == old(pool)
        && SameWalks(old(dirs), old(tabs), dirs, tabs)
      ensures d == NULL <==> old(free) == []
      ensures d == NULL ==> dirs == old(dirs) && free == old(free)
      ensures d != NULL ==>
        d !in old(dirs) && dirs == old(dirs)[d := seq(N, _ => None)] && forall p: nat :: Walk(dirs, tabs, d, p).None?
      ensures d != NULL ==> |free| == |old(free)| - 1 && Present(dirs, d) == {}
    {
      hide Spaces, Chain, Parted, Walk;
      d := Kalloc();
      if d != NULL {
        DirAdded(dirs, tabs, data.Keys, own, d);
        DirsOwn(dirs, tabs, data.Keys, own);
        Taken(pool, free, own.Keys, held, d);
        dirs := dirs[d := seq(N, _ => None)];
        assert (own[d := Dir]).Keys == own.Keys + {d};
        own := own[d := Dir];
        held := held - {d};
        assert held == old(held);
      }
    }

    /**
     * setupkvm: a space with the kernel's mappings and no user pages, exactly if there are pages enough for the
     * directory and its tables; else nothing changed.
     */
    method Setupkvm(kmap: seq<Range>) returns (d: nat)
      requires Valid() && KmapOk(kmap)
      modifies this, next
      ensures Valid() && data == old(data) && held == old(held) && pool == old(pool)
      ensures forall e: nat, q: nat :: e != d || d == NULL ==> Walk(dirs, tabs, e, q) == old(Walk(dirs, tabs, e, q))
      ensures d == NULL ==> dirs == old(dirs)
      ensures d != NULL ==> d !in old(dirs) && d in dirs && dirs == old(dirs)[d := dirs[d]]
      ensures d != NULL ==> forall q: nat :: q < USER ==> Walk(dirs, tabs, d, q).None?
      ensures d != NULL ==> forall i, q: nat :: 0 <= i < |kmap| && kmap[i].Has(q) ==>
        Walk(dirs, tabs, d, q) == Entry(kmap[i].phys + (q - kmap[i].start), kmap[i].perm)
      ensures d != NULL <==> |old(free)| >= 1 + |KernelSlots(kmap, |kmap|)|
      ensures d != NULL ==>
        |free| == |old(free)| - 1 - |KernelSlots(kmap, |kmap|)| && Present(dirs, d) == KernelSlots(kmap, |kmap|)
    {
      hide Spaces, Chain, Parted, Walk, Present, Missing, KernelSlots;
      KernelSlotsNone(kmap);
      d := NewDir();
      if d == NULL {
        return;
      }
      var i := 0;
      while i < |kmap|
        invariant i <= |kmap| && Valid() && d !in old(dirs) && d in dirs && dirs == old(dirs)[d := dirs[d]]
          && data == old(data) && held == old(held) && pool == old(pool)
        invariant forall e: nat, q: nat :: e != d ==> Walk(dirs, tabs, e, q) == old(Walk(dirs, tabs, e, q))
        invariant forall q: nat :: !InRanges(kmap, i, q) ==> Walk(dirs, tabs, d, q).None?
        invariant forall j, q: nat :: 0 <= j < i && kmap[j].Has(q) ==> Walk(dirs, tabs, d, q) == kmap[j].EntryFor(q)
        invariant |free| == |old(free)| - 1 - |KernelSlots(kmap, i)| && Present(dirs, d) == KernelSlots(kmap, i)
      {
        RangeFree(kmap, i);
        KernelSlotsStep(kmap, i);
        var ok := MapRange(d, kmap[i]);
        if !ok {
          Abandon(d, old(dirs), old(tabs), old(data), old(own));
          return NULL;
        }
        i := i + 1;
      }
      UserOutside(kmap);
    }

    /** A space under construction given up: what was there before is as it was. */
    method Abandon(d: nat, ghost d0: Tables, ghost t0: Tables, ghost m0: map<nat, T>, ghost o0: Owners)
      requires Valid() && d in dirs && d !in d0 && dirs == d0[d := dirs[d]] && Spaces(d0, t0, m0.Keys, o0)
      requires forall e: nat, q: nat :: e != d ==> Walk(dirs, tabs, e, q) == Walk(d0, t0, e, q)
      requires forall f :: f in m0 ==> f in data && data[f] == m0[f]
      modifies this, next
      ensures Valid() && dirs == d0 && data == m0 && held == old(held) && pool == old(pool)
        && SameWalks(d0, t0, dirs, tabs)
    {
      hide Spaces, Chain, Parted, Walk;
      ghost var m := data;
      Freevm(d);
      assert dirs == d0;
      forall q: nat
        ensures Walk(dirs, tabs, d, q) == Walk(d0, t0, d, q)
      {
        NoDirectory(dirs, tabs, d, q);
        NoDirectory(d0, t0, d, q);
      }
      SameData(d0, t0, m0.Keys, o0, dirs, tabs, data.Keys, own);
    }

    /**
     * copyuvm2: a space with the same pages present, with the same flags and contents, on pages of its own, exactly
     * if there are pages enough for the directory, the tables and the pages; else nothing changed.
     */
    method Copyuvm2(d: nat, sz: nat, kmap: seq<Range>) returns (c: nat)
      requires Valid() && KmapOk(kmap) && d in dirs && sz <= KERNBASE
      requires forall p: nat :: p < PageUp(sz) ==> Slot(dirs, d, p / N).Entry?
      modifies this, next
      ensures Valid() && held == old(held) && pool == old(pool)
      ensures c == NULL ==> dirs == old(dirs) && data == old(data) && SameWalks(old(dirs), old(tabs), dirs, tabs)
      ensures c != NULL ==> c !in old(dirs) && c in dirs && dirs == old(dirs)[c := dirs[c]]
      ensures c != NULL ==> Copied(old(dirs), old(tabs), old(data), dirs, tabs, data, d, c, PageUp(sz))
      ensures var kernel := KernelSlots(kmap, |kmap|);
        var cost := 1 + |kernel| + old(CopyNeed(dirs, tabs, d, PageUp(sz), kernel));
        && (c != NULL <==> |old(free)| >= cost)
        && (c != NULL ==> |free| == |old(free)| - cost)
    {
      hide Spaces, Chain, Parted, Walk, Copied, Present, KernelSlots, CopyNeed, UsedSlots;
      ghost var kernel, hi := KernelSlots(kmap, |kmap|), PageUp(sz);
      CopyNeedNone(old(dirs), old(tabs), d, kernel);
      c := Setupkvm(kmap);
      if c == NULL {
        return;
      }
      CopiedNone(old(dirs), old(tabs), data, dirs, tabs, d, c);
      var i := 0;
      while i * PGSIZE < sz
        invariant 0 <= i <= PageUp(sz) && Valid() && held == old(held) && pool == old(pool)
        invariant c !in old(dirs) && c in dirs && dirs == old(dirs)[c := dirs[c]]
        invariant Copied(old(dirs), old(tabs), old(data), dirs, tabs, data, d, c, i)
        invariant |free| == |old(free)| - 1 - |kernel| - CopyNeed(old(dirs), old(tabs), d, i, kernel)
        invariant Present(dirs, c) == kernel + UsedSlots(old(dirs), old(tabs), d, i)
      {
        CopyNeedStep(old(dirs), old(tabs), d, i, kernel);
        CopyNeedGrows(old(dirs), old(tabs), d, i + 1, hi, kernel);
        var done := CopyPage(d, c, i, old(dirs), old(tabs), old(data), old(own));
        if !done {
          CopiedRest(old(dirs), old(tabs), old(data), dirs, tabs, data, d, c, i);
          Abandon(c, old(dirs), old(tabs), old(data), old(own));
          return NULL;
        }
        i := i + 1;
      }
    }

    /** One page of the copy. */
    method CopyPage(d: nat, c: nat, i: nat, ghost d0: Tables, ghost t0: Tables, ghost m0: map<nat, T>, ghost o0: Owners)
        returns (ok: bool)
      requires Valid() && d in d0 && c in dirs && d in dirs && d != c && i < USER && Spaces(d0, t0, m0.Keys, o0)
      requires Copied(d0, t0, m0, dirs, tabs, data, d, c, i)
      modifies this, next
      ensures Valid() && held == old(held) && pool == old(pool) && c in dirs && dirs == old(dirs)[c := dirs[c]]
      ensures ok ==> Copied(d0, t0, m0, dirs, tabs, data, d, c, i + 1)
      ensures !ok ==> Copied(d0, t0, m0, dirs, tabs, data, d, c, i)
      ensures Walk(d0, t0, d, i).None? ==> ok && free == old(free) && Present(dirs, c) == old(Present(dirs, c))
      ensures Walk(d0, t0, d, i).Entry? ==>
        var cost := 1 + if i / N in old(Present(dirs, c)) then 0 else 1;
        && (ok <==> |old(free)| >= cost)
        && (ok ==> |free| == |old(free)| - cost && Present(dirs, c) == old(Present(dirs, c)) + {i / N})
    {
      hide Spaces, Chain, Parted, Walk, Copied;
      ghost var g, t, m := dirs, tabs, data;
      CopyFacts(d0, t0, m0, o0, dirs, tabs, data, d, c, i);
      var x := Walk(dirs, tabs, d, i);
      if x.None? {
        CopiedGap(d0, t0, m0, dirs, tabs, data, d, c, i);
        return true;
      }
      var mem := Kalloc();
      if mem == NULL {
        return false;
      }
      ok := MapPage(c, i, mem, x.flags, data[x.frame]);
      if !ok {
        Kfree(mem);
        assert held == old(held);
        CopiedSame(d0, t0, m0, g, t, dirs, tabs, data, d, c, i);
      } else {
        assert held == old(held);
        CopiedOne(d0, t0, m0, g, t, m, dirs, tabs, data, d, c, i, mem);
      }
    }
  }

  /** A pool of three pages, all taken: by a directory, by a table, and by page 1 of the space. */
  method OccupiedSpace<T>(zero: T) returns (k: Kernel<T>, d: nat)
    ensures fresh(k) && fresh(k.next) && k.Valid() && d in k.dirs && k.free == [] && Walk(k.dirs, k.tabs, d, 1).Entry?
  {
    hide Spaces, Chain, Parted, Walk, Kernel.Pooled, Missing, FirstTaken;
    k := new Kernel(4);
    k.FreeRange(1, 4);
    d := k.NewDir();
    OnePageNeed();
    ghost var m := k.data;
    var r, ok, panic := k.Allocuvm(d, PGSIZE, 2 * PGSIZE, zero);
    assert NewPage(k.dirs, k.tabs, k.data, m, d, 1, zero);
  }

  /** allocuvm from 0 fails in such a space, and its way out unmaps page 1. */
  method OccupiedRange<T>(k: Kernel<T>, d: nat, zero: T) returns (r: nat)
    requires k.Valid() && d in k.dirs && k.free == [] && Walk(k.dirs, k.tabs, d, 1).Entry?
    modifies k, k.next
    ensures k.Valid() && r == 0 && Walk(k.dirs, k.tabs, d, 1).None?
  {
    hide Spaces, Chain, Parted, Walk, Kernel.Pooled, Missing, FirstTaken;
    OnePageNeed();
    ghost var ok;
    var panic;
    r, ok, panic := k.Allocuvm(d, 0, 2 * PGSIZE, zero);
  }

  /** Page 1 of an empty space takes itself and a table. */
  lemma OnePageNeed()
    ensures PageUp(0) == 0 && PageUp(PGSIZE) == 1 && PageUp(2 * PGSIZE) == 2 && Need({}, 1, 2) == 2
  {
    assert SlotsOf(1, 1) == {};
    assert SlotsOf(1, 2) == {0};
    assert {0} - {} == {0};
  }

  /** Page `q` of the copy is there as in the original, with its flags and contents, on a page of its own. */
  ghost predicate CopyOf<T>(d0: Tables, t0: Tables, m0: map<nat, T>, dirs: Tables, tabs: Tables, data: map<nat, T>,
      d: nat, c: nat, q: nat) {
    var x, y := Walk(d0, t0, d, q), Walk(dirs, tabs, c, q);
    if x.None? then y.None? else
      && y.Entry? && y.flags == x.flags && x.frame in m0 && y.frame in data && data[y.frame] == m0[x.frame]
      && y.frame !in m0
  }

  /**
   * The first `hi` pages of `c` are copies of those of `d`, it has no other user pages, and nothing else has changed.
   */
  ghost predicate Copied<T>(d0: Tables, t0: Tables, m0: map<nat, T>, dirs: Tables, tabs: Tables, data: map<nat, T>,
      d: nat, c: nat, hi: nat) {
    && (forall e: nat, q: nat :: e != c ==> Walk(dirs, tabs, e, q) == Walk(d0, t0, e, q))
    && (forall q: nat :: q < hi ==> CopyOf(d0, t0, m0, dirs, tabs, data, d, c, q))
    && (forall q: nat :: hi <= q < USER ==> Walk(dirs, tabs, c, q).None?)
    && (forall f :: f in m0 ==> f in data && data[f] == m0[f])
  }

  lemma CopiedNone<T>(d0: Tables, t0: Tables, m0: map<nat, T>, dirs: Tables, tabs: Tables, d: nat, c: nat)
    requires forall e: nat, q: nat :: e != c ==> Walk(dirs, tabs, e, q) == Walk(d0, t0, e, q)
    requires forall q: nat :: q < USER ==> Walk(dirs, tabs, c, q).None?
    ensures Copied(d0, t0, m0, dirs, tabs, m0, d, c, 0)
  {
    hide Walk;
  }

  lemma CopiedRest<T>(d0: Tables, t0: Tables, m0: map<nat, T>, dirs: Tables, tabs: Tables, data: map<nat, T>, d: nat,
      c: nat, i: nat)
    requires Copied(d0, t0, m0, dirs, tabs, data, d, c, i)
    ensures forall e: nat, q: nat :: e != c ==> Walk(dirs, tabs, e, q) == Walk(d0, t0, e, q)
    ensures forall f :: f in m0 ==> f in data && data[f] == m0[f]
  {
    hide Walk;
  }

  lemma CopyFacts<T>(d0: Tables, t0: Tables, m0: map<nat, T>, o0: Owners, dirs: Tables, tabs: Tables, data: map<nat, T>,
      d: nat, c: nat, i: nat)
    requires Copied(d0, t0, m0, dirs, tabs, data, d, c, i) && Spaces(d0, t0, m0.Keys, o0) && d != c && i < USER
    ensures Walk(dirs, tabs, d, i) == Walk(d0, t0, d, i) && Walk(dirs, tabs, c, i).None?
    ensures var x := Walk(d0, t0, d, i); x.Entry? ==> x.frame in m0 && x.frame in data && data[x.frame] == m0[x.frame]
  {
    hide Walk;
  }

  lemma CopiedGap<T>(d0: Tables, t0: Tables, m0: map<nat, T>, dirs: Tables, tabs: Tables, data: map<nat, T>, d: nat,
      c: nat, i: nat)
    requires Copied(d0, t0, m0, dirs, tabs, data, d, c, i) && Walk(d0, t0, d, i).None? && i < USER
    ensures Copied(d0, t0, m0, dirs, tabs, data, d, c, i + 1)
  {
    hide Walk;
  }

  lemma CopiedSame<T>(d0: Tables, t0: Tables, m0: map<nat, T>, g: Tables, t: Tables, dirs: Tables, tabs: Tables,
      data: map<nat, T>, d: nat, c: nat, i: nat)
    requires Copied(d0, t0, m0, g, t, data, d, c, i) && SameWalks(g, t, dirs, tabs)
    ensures Copied(d0, t0, m0, dirs, tabs, data, d, c, i)
  {
    hide Walk;
    forall q: nat | q < i
      ensures CopyOf(d0, t0, m0, dirs, tabs, data, d, c, q)
    {
      assert CopyOf(d0, t0, m0, g, t, data, d, c, q);
    }
  }

  lemma CopiedOne<T>(d0: Tables, t0: Tables, m0: map<nat, T>, g: Tables, t: Tables, m: map<nat, T>, dirs: Tables,
      tabs: Tables, data: map<nat, T>, d: nat, c: nat, i: nat, f: nat)
    requires Copied(d0, t0, m0, g, t, m, d, c, i) && f !in m
    requires Walk(d0, t0, d, i).Entry? && Walk(d0, t0, d, i).frame in m0 && data == m[f := m0[Walk(d0, t0, d, i).frame]]
    requires forall e: nat, q: nat ::
      Walk(dirs, tabs, e, q) == if e == c && q == i then Entry(f, Walk(d0, t0, d, i).flags) else Walk(g, t, e, q)
    ensures Copied(d0, t0, m0, dirs, tabs, data, d, c, i + 1)
  {
    hide Walk;
    forall q: nat | q < i + 1
      ensures CopyOf(d0, t0, m0, dirs, tabs, data, d, c, q)
    {
      if q < i {
        assert CopyOf(d0, t0, m0, g, t, m, d, c, q);
      }
    }
  }

  /** A run of the kernel's mappings, in pages. */
  datatype Range = Range(start: nat, count: nat, phys: nat, perm: nat) {
    predicate InKernel() {
      USER <= start && 0 < count && start + count <= N * N
    }

    predicate Has(q: nat) {
      start <= q < start + count
    }

    ghost function Slots(): set<nat> {
      SlotsOf(start, start + count)
    }

    function EntryFor(q: nat): Entry
      requires Has(q)
    {
      Entry(phys + (q - start), perm)
    }
  }

  /** The kernel's map: runs above KERNBASE that do not overlap. */
  ghost predicate KmapOk(kmap: seq<Range>) {
    && (forall i :: 0 <= i < |kmap| ==> kmap[i].InKernel())
    && forall i, j :: 0 <= i < j < |kmap| ==>
      kmap[i].start + kmap[i].count <= kmap[j].start || kmap[j].start + kmap[j].count <= kmap[i].start
  }

  ghost predicate InRanges(kmap: seq<Range>, n: nat, q: nat) {
    exists i :: 0 <= i < n && i < |kmap| && kmap[i].Has(q)
  }

  lemma RangeFree(kmap: seq<Range>, i: nat)
    requires KmapOk(kmap) && i < |kmap|
    ensures forall q: nat :: kmap[i].Has(q) ==> !InRanges(kmap, i, q)
    ensures forall q: nat :: InRanges(kmap, i + 1, q) <==> InRanges(kmap, i, q) || kmap[i].Has(q)
  {
    forall q: nat
      ensures InRanges(kmap, i + 1, q) <==> InRanges(kmap, i, q) || kmap[i].Has(q)
    {
      if InRanges(kmap, i + 1, q) {
        var j :| 0 <= j < i + 1 && j < |kmap| && kmap[j].Has(q);
        assert j < i ==> InRanges(kmap, i, q);
      }
    }
  }

  /** The slots that the first `i` runs fall in. */
  ghost function KernelSlots(kmap: seq<Range>, i: nat): set<nat>
    requires i <= |kmap|
  {
    if i == 0 then {} else KernelSlots(kmap, i - 1) + kmap[i - 1].Slots()
  }

  lemma KernelSlotsNone(kmap: seq<Range>)
    ensures KernelSlots(kmap, 0) == {}
  {
  }

  lemma KernelSlotsStep(kmap: seq<Range>, i: nat)
    requires i < |kmap|
    ensures KernelSlots(kmap, i + 1) == KernelSlots(kmap, i) + kmap[i].Slots()
    ensures |KernelSlots(kmap, i + 1)| == |KernelSlots(kmap, i)| + Missing(kmap[i].Slots(), KernelSlots(kmap, i))
    ensures |KernelSlots(kmap, i + 1)| <= |KernelSlots(kmap, |kmap|)|
  {
    var a, b := KernelSlots(kmap, i), kmap[i].Slots();
    assert a + b == a + (b - a);
    KernelSlotsGrow(kmap, i + 1, |kmap|);
    Subset(KernelSlots(kmap, i + 1), KernelSlots(kmap, |kmap|));
  }

  lemma {:induction false} KernelSlotsGrow(kmap: seq<Range>, i: nat, j: nat)
    requires i <= j <= |kmap|
    ensures KernelSlots(kmap, i) <= KernelSlots(kmap, j)
  {
    if i < j {
      KernelSlotsGrow(kmap, i, j - 1);
    }
  }

  lemma UserOutside(kmap: seq<Range>)
    requires KmapOk(kmap)
    ensures forall q: nat :: q < USER ==> !InRanges(kmap, |kmap|, q)
  {
  }

  lemma DirsOwn(dirs: Tables, tabs: Tables, data: set<nat>, own: Owners)
    requires Spaces(dirs, tabs, data, own)
    ensures dirs.Keys <= own.Keys
  {
  }

  /** The place of page `f` is in the space of directory `d`. */
  ghost predicate Of(x: Place, f: nat, d: nat) {
    match x
    case Dir => f == d
    case Tab(e, _) => e == d
    case User(e, _) => e == d
  }

  /** With the space of `d` gone, its pages have no place, and the others have theirs. */
  lemma Returned(dirs: Tables, tabs: Tables, data: set<nat>, own: Owners, dirs': Tables, tabs': Tables, data': set<nat>,
      own': Owners, d: nat)
    requires Spaces(dirs, tabs, data, own) && Spaces(dirs', tabs', data', own') && dirs' == dirs - {d}
    requires forall e: nat, p: nat :: e != d ==> Walk(dirs', tabs', e, p) == Walk(dirs, tabs, e, p)
    ensures forall f :: f in own ==> if Of(own[f], f, d) then f !in own' else Owned(own', f, own[f])
  {
    forall f | f in own
      ensures if Of(own[f], f, d) then f !in own' else Owned(own', f, own[f])
    {
      ReturnedOne(dirs, tabs, data, own, dirs', tabs', data', own', d, f);
    }
  }

  lemma ReturnedOne(dirs: Tables, tabs: Tables, data: set<nat>, own: Owners, dirs': Tables, tabs': Tables,
      data': set<nat>, own': Owners, d: nat, f: nat)
    requires Spaces(dirs, tabs, data, own) && Spaces(dirs', tabs', data', own') && dirs' == dirs - {d} && f in own
    requires forall e: nat, p: nat :: e != d ==> Walk(dirs', tabs', e, p) == Walk(dirs, tabs, e, p)
    ensures if Of(own[f], f, d) then f !in own' else Owned(own', f, own[f])
  {
    hide Walk;
    forall e: nat, i: nat
      ensures Slot(dirs', e, i) == if e == d then None else Slot(dirs, e, i)
    {
    }
    forall p: nat
      ensures Walk(dirs', tabs', d, p).None?
    {
      NoDirectory(dirs', tabs', d, p);
    }
  }

  lemma NoDirectory(dirs: Tables, tabs: Tables, d: nat, p: nat)
    requires d !in dirs
    ensures Walk(dirs, tabs, d, p).None?
  {
  }

  /** A page that no space has and that was not handed out is free. */
  lemma NotElsewhere(pool: set<nat>, free0: seq<nat>, used0: set<nat>, free: seq<nat>, used: set<nat>,
      held: set<nat>, f: nat)
    requires Parted(pool, free0, used0, held) && Parted(pool, free, used, held) && f in used0 && f !in used
    ensures f in free
  {
  }

  /** Page `q` is new: it has a page of its own, zeroed. */
  ghost predicate NewPage<T>(dirs: Tables, tabs: Tables, data: map<nat, T>, data0: map<nat, T>, d: nat, q: nat,
      zero: T) {
    var x := Walk(dirs, tabs, d, q);
    x.Entry? && x.flags == PTE_W + PTE_U && x.frame in data && data[x.frame] == zero && x.frame !in data0
  }

  /** The pages from `lo` to `hi` of one space are new, and nothing else has changed. */
  ghost predicate Added<T>(dirs0: Tables, tabs0: Tables, data0: map<nat, T>, dirs: Tables, tabs: Tables, data: map<nat,
      T>, d: nat, lo: nat, hi: nat, zero: T) {
    && (forall e: nat, q: nat :: !(e == d && lo <= q < hi) ==> Walk(dirs, tabs, e, q) == Walk(dirs0, tabs0, e, q))
    && (forall q: nat :: lo <= q < hi ==> NewPage(dirs, tabs, data, data0, d, q, zero))
    && (forall f :: f in data0 ==> f in data && data[f] == data0[f])
  }

  lemma AddedNone<T>(dirs: Tables, tabs: Tables, data: map<nat, T>, d: nat, lo: nat, hi: nat, zero: T)
    ensures Added(dirs, tabs, data, dirs, tabs, data, d, lo, lo, zero)
    ensures hi <= lo ==> Added(dirs, tabs, data, dirs, tabs, data, d, lo, hi, zero)
  {
    hide Walk;
  }

  lemma AddedFree<T>(dirs0: Tables, tabs0: Tables, data0: map<nat, T>, dirs: Tables, tabs: Tables, data: map<nat, T>,
      d: nat, lo: nat, a: nat, zero: T)
    requires Added(dirs0, tabs0, data0, dirs, tabs, data, d, lo, a, zero)
    ensures Walk(dirs, tabs, d, a) == Walk(dirs0, tabs0, d, a)
  {
    hide Walk;
  }

  lemma AddedSame<T>(dirs0: Tables, tabs0: Tables, data0: map<nat, T>, g: Tables, t: Tables, dirs: Tables, tabs: Tables,
      data: map<nat, T>, d: nat, lo: nat, a: nat, zero: T)
    requires Added(dirs0, tabs0, data0, g, t, data, d, lo, a, zero) && SameWalks(g, t, dirs, tabs)
    ensures Added(dirs0, tabs0, data0, dirs, tabs, data, d, lo, a, zero)
  {
    hide Walk;
    forall q: nat | lo <= q < a
      ensures NewPage(dirs, tabs, data, data0, d, q, zero)
    {
      assert NewPage(g, t, data, data0, d, q, zero);
    }
  }

  lemma AddedOne<T>(dirs0: Tables, tabs0: Tables, data0: map<nat, T>, g: Tables, t: Tables, m: map<nat, T>,
      dirs: Tables, tabs: Tables, data: map<nat, T>, d: nat, lo: nat, a: nat, zero: T, f: nat)
    requires Added(dirs0, tabs0, data0, g, t, m, d, lo, a, zero) && lo <= a && f !in m && data == m[f := zero]
    requires forall e: nat, q: nat ::
      Walk(dirs, tabs, e, q) == if e == d && q == a then Entry(f, PTE_W + PTE_U) else Walk(g, t, e, q)
    ensures Added(dirs0, tabs0, data0, dirs, tabs, data, d, lo, a + 1, zero)
  {
    hide Walk;
    forall q: nat | lo <= q < a + 1
      ensures NewPage(dirs, tabs, data, data0, d, q, zero)
    {
      if q < a {
        assert NewPage(g, t, m, data0, d, q, zero);
      }
    }
  }

  /** The user pages of a system of spaces are the pages its mappings name. */
  lemma SameData(dirs: Tables, tabs: Tables, data: set<nat>, own: Owners, dirs': Tables, tabs': Tables, data': set<nat>,
      own': Owners)
    requires Spaces(dirs, tabs, data, own) && Spaces(dirs', tabs', data', own') && SameWalks(dirs, tabs, dirs', tabs')
    ensures data' == data
  {
    hide Walk;
    DataWithin(dirs, tabs, data, own, dirs', tabs', data', own');
    DataWithin(dirs', tabs', data', own', dirs, tabs, data, own);
  }

  lemma DataWithin(dirs: Tables, tabs: Tables, data: set<nat>, own: Owners, dirs': Tables, tabs': Tables,
      data': set<nat>, own': Owners)
    requires Spaces(dirs, tabs, data, own) && Spaces(dirs', tabs', data', own')
    requires forall e: nat, q: nat :: Walk(dirs, tabs, e, q).None? || Walk(dirs', tabs', e, q) == Walk(dirs, tabs, e, q)
    ensures data <= data'
  {
    hide Walk;
    forall f | f in data
      ensures f in data'
    {
      var p := own[f];
      assert Walk(dirs', tabs', p.d, p.p) == Walk(dirs, tabs, p.d, p.p);
    }
  }

  /** No page of the range is mapped. */
  ghost predicate Unoccupied(dirs: Tables, tabs: Tables, d: nat, lo: nat, hi: nat) {
    forall p: nat :: lo <= p < hi ==> Walk(dirs, tabs, d, p).None?
  }

  lemma NothingTaken(dirs: Tables, tabs: Tables, d: nat, lo: nat, hi: nat)
    ensures Unoccupied(dirs, tabs, d, lo, lo) && (hi <= lo ==> Unoccupied(dirs, tabs, d, lo, hi))
  {
  }

  lemma NeedNothing(present: set<nat>, lo: nat)
    ensures Need(present, lo, lo) == 0 && SlotsOf(lo, lo) == {}
  {
    assert {} - present == {};
  }

  /** The range is free up to `a`: either `a` is taken, or the first page that is taken comes later. */
  lemma FirstIs(dirs: Tables, tabs: Tables, d: nat, lo: nat, a: nat, hi: nat)
    requires Unoccupied(dirs, tabs, d, lo, a) && lo <= a <= hi
    ensures var first := FirstTaken(dirs, tabs, d, lo, hi);
      && a <= first
      && (a < hi && Walk(dirs, tabs, d, a).Entry? ==> first == a)
      && (a < hi && Walk(dirs, tabs, d, a).None? ==> a < first)
      && (first == hi <==> Unoccupied(dirs, tabs, d, lo, hi))
  {
    hide Walk;
  }

  lemma OneMore(dirs: Tables, tabs: Tables, d: nat, lo: nat, a: nat, hi: nat)
    requires Unoccupied(dirs, tabs, d, lo, a) && lo <= a < hi
    ensures Unoccupied(dirs, tabs, d, lo, a + 1) <==> Walk(dirs, tabs, d, a).None?
    ensures Walk(dirs, tabs, d, a).Entry? ==> !Unoccupied(dirs, tabs, d, lo, hi)
  {
    hide Walk;
  }

  /** The range of the space is unmapped, every other mapping is as it was, and so are the pages that are left. */
  ghost predicate Emptied<T>(dirs0: Tables, tabs0: Tables, data0: map<nat, T>, dirs: Tables, tabs: Tables,
      data: map<nat, T>, d: nat, lo: nat, hi: nat) {
    && (forall e: nat, q: nat ::
          Walk(dirs, tabs, e, q) == if e == d && lo <= q < hi then None else Walk(dirs0, tabs0, e, q))
    && (forall f :: f in data ==> f in data0 && data[f] == data0[f])
  }

  lemma EmptiedSame<T>(dirs0: Tables, tabs0: Tables, data0: map<nat, T>, dirs: Tables, tabs: Tables, data: map<nat, T>,
      d: nat, lo: nat, hi: nat)
    requires Emptied(dirs0, tabs0, data0, dirs, tabs, data, d, lo, hi)
    ensures SameWalks(dirs0, tabs0, dirs, tabs) <==> Unoccupied(dirs0, tabs0, d, lo, hi)
  {
    hide Walk;
  }

  /** PGROUNDUP, as a page number. */
  function PageUp(sz: nat): nat {
    (sz + PGSIZE - 1) / PGSIZE
  }

  /** Without a table, none of the slot's pages is mapped. */
  lemma Skipped(dirs: Tables, tabs: Tables, d: nat, a: nat)
    requires Slot(dirs, d, a / N).None?
    ensures forall q: nat :: a <= q < (a / N + 1) * N ==> Walk(dirs, tabs, d, q).None?
  {
    forall q: nat | a <= q < (a / N + 1) * N
      ensures Walk(dirs, tabs, d, q).None?
    {
      assert q / N == a / N;
    }
  }

  lemma SlotIn(dirs: Tables, tabs: Tables, data: set<nat>, own: Owners, d: nat, i: nat)
    requires Spaces(dirs, tabs, data, own) && d in dirs && i < N
    ensures |dirs[d]| == N && Slot(dirs, d, i) == dirs[d][i]
  {
  }

  lemma SameSelf(dirs: Tables, tabs: Tables)
    ensures SameWalks(dirs, tabs, dirs, tabs)
  {
  }

  lemma DataOwned(dirs: Tables, tabs: Tables, data: set<nat>, own: Owners)
    requires Spaces(dirs, tabs, data, own)
    ensures data <= own.Keys
  {
  }

  lemma FactsAt(dirs: Tables, tabs: Tables, data: set<nat>, own: Owners, d: nat, p: nat)
    requires Spaces(dirs, tabs, data, own)
    ensures Sized(tabs) && TabsOwned(dirs, tabs, own)
  {
  }

  /** A page handed out becomes part of an address space. */
  lemma Taken(pool: set<nat>, free: seq<nat>, used: set<nat>, held: set<nat>, f: nat)
    requires Parted(pool, free, used, held) && f in held
    ensures Parted(pool, free, used + {f}, held - {f})
  {
  }

  lemma Given(pool: set<nat>, free: seq<nat>, used: set<nat>, held: set<nat>, f: nat)
    requires Parted(pool, free, used, held) && f in used
    ensures Parted(pool, free, used - {f}, held + {f}) && f !in held && f != NULL
  {
  }

  lemma HeldNotOwned(pool: set<nat>, free: seq<nat>, used: set<nat>, held: set<nat>, f: nat)
    requires Parted(pool, free, used, held) && f in held
    ensures f !in used
  {
  }

  lemma Joins(pool: set<nat>, free: seq<nat>, used: set<nat>, held: set<nat>, f: nat)
    requires Parted(pool, free, used, held) && f !in pool && f != NULL
    ensures Parted(pool + {f}, free, used, held + {f}) && f !in held
  {
  }

  lemma HeldInPool(pool: set<nat>, free: seq<nat>, used: set<nat>, held: set<nat>, f: nat)
    requires Parted(pool, free, used, held) && f in held
    ensures f in pool && f != NULL
  {
  }
}
