/** proc.c: where the threads of a process have their stacks, in units of pages. */
module ThreadStacks {
  import opened Collections
  import Sched

  const NPROC: nat := Sched.NPROC
  const STACK: nat := 2   // a guard page and a stack page

  ghost predicate Apart(a: nat, b: nat) {
    a + STACK <= b || b + STACK <= a
  }

  /** Threads have slots of the process table other than their master's, so one more leaves them fewer than NPROC. */
  lemma FewThreads(base: map<nat, nat>, t: nat, master: nat, n: nat)
    requires t < n && t != master && t !in base && master < n && master !in base && forall u :: u in base ==> u < n
    ensures |base.Keys| + 1 < n
  {
    hide UpTo;
    Subset(base.Keys + {t} + {master}, UpTo(n));
  }

  /** Page `p` belongs to a stack that is kept for reuse. */
  ghost predicate Spare(empty: seq<nat>, p: nat) {
    exists i :: 0 <= i < |empty| && empty[i] <= p < empty[i] + STACK
  }

  /** Stacks in use and stacks kept for reuse are disjoint and below sz. */
  ghost predicate Disjoint(sz: nat, empty: seq<nat>, base: map<nat, nat>) {
    && (forall t :: t in base ==> base[t] + STACK <= sz)
    && (forall i :: 0 <= i < |empty| ==> empty[i] + STACK <= sz)
    && (forall t, u :: t in base && u in base && t != u ==> Apart(base[t], base[u]))
    && (forall i, j :: 0 <= i < j < |empty| ==> Apart(empty[i], empty[j]))
    && (forall t, i :: t in base && 0 <= i < |empty| ==> Apart(base[t], empty[i]))
  }

  /** The pages present are those below sz that are not kept for reuse. */
  ghost predicate Present(sz: nat, empty: seq<nat>, mapped: set<nat>) {
    forall p: nat :: p in mapped <==> p < sz && !Spare(empty, p)
  }

  /** A stack in use is present and a stack kept for reuse is not. */
  lemma PresentInUse(sz: nat, empty: seq<nat>, base: map<nat, nat>, mapped: set<nat>)
    requires Disjoint(sz, empty, base) && Present(sz, empty, mapped)
    ensures forall t :: t in base ==> base[t] in mapped && base[t] + 1 in mapped
    ensures forall i :: 0 <= i < |empty| ==> empty[i] !in mapped && empty[i] + 1 !in mapped
  {
    forall t | t in base
      ensures base[t] in mapped && base[t] + 1 in mapped
    {
      NotSpare(sz, empty, base, t, base[t]);
      NotSpare(sz, empty, base, t, base[t] + 1);
    }
  }

  lemma NotSpare(sz: nat, empty: seq<nat>, base: map<nat, nat>, t: nat, p: nat)
    requires Disjoint(sz, empty, base) && t in base && base[t] <= p < base[t] + STACK
    ensures !Spare(empty, p)
  {
  }

  lemma Reused(sz: nat, empty: seq<nat>, base: map<nat, nat>, mapped: set<nat>, t: nat)
    requires Disjoint(sz, empty, base) && Present(sz, empty, mapped) && empty != [] && t !in base
    ensures var n := |empty| - 1; var b := empty[n];
      && Disjoint(sz, empty[..n], base[t := b]) && Present(sz, empty[..n], mapped + {b, b + 1})
      && b + STACK <= sz && b !in mapped && b + 1 !in mapped
  {
    var n := |empty| - 1;
    var b := empty[n];
    var rest := empty[..n];
    forall p: nat
      ensures p in mapped + {b, b + 1} <==> p < sz && !Spare(rest, p)
    {
      SpareLess(empty, p);
    }
    assert Spare(empty, b) && Spare(empty, b + 1);
    forall i | 0 <= i < n
      ensures Apart(b, rest[i])
    {
      assert Apart(empty[i], empty[n]);
    }
    assert !Spare(rest, b) && !Spare(rest, b + 1);
  }

  lemma SpareLess(empty: seq<nat>, p: nat)
    requires empty != []
    ensures var n := |empty| - 1; Spare(empty, p) <==> Spare(empty[..n], p) || empty[n] <= p < empty[n] + STACK
  {
    var n := |empty| - 1;
    var rest := empty[..n];
    if Spare(empty, p) {
      var i :| 0 <= i < |empty| && empty[i] <= p < empty[i] + STACK;
      assert i < n ==> rest[i] == empty[i];
    }
    if Spare(rest, p) {
      var i :| 0 <= i < |rest| && rest[i] <= p < rest[i] + STACK;
      assert empty[i] == rest[i];
    }
  }

  lemma Topped(sz: nat, base: map<nat, nat>, mapped: set<nat>, t: nat)
    requires Disjoint(sz, [], base) && Present(sz, [], mapped) && t !in base
    ensures Disjoint(sz + STACK, [], base[t := sz]) && Present(sz + STACK, [], mapped + {sz, sz + 1})
    ensures sz !in mapped && sz + 1 !in mapped
  {
  }

  lemma Retired(sz: nat, empty: seq<nat>, base: map<nat, nat>, mapped: set<nat>, t: nat)
    requires Disjoint(sz, empty, base) && Present(sz, empty, mapped) && t in base
    ensures Disjoint(sz, empty + [base[t]], base - {t})
    ensures Present(sz, empty + [base[t]], mapped - {base[t], base[t] + 1})
  {
    var b := base[t];
    var e := empty + [b];
    assert e[..|empty|] == empty;
    forall p: nat
      ensures p in mapped - {b, b + 1} <==> p < sz && !Spare(e, p)
    {
      SpareLess(e, p);
    }
  }

  lemma Shrunk(sz: nat, empty: seq<nat>, base: map<nat, nat>, mapped: set<nat>, t: nat)
    requires Disjoint(sz, empty, base) && Present(sz, empty, mapped) && t in base && base[t] + STACK == sz
    ensures Disjoint(sz - STACK, empty, base - {t}) && Present(sz - STACK, empty, mapped - {base[t], base[t] + 1})
  {
    forall i | 0 <= i < |empty|
      ensures empty[i] + STACK <= sz - STACK
    {
      assert Apart(base[t], empty[i]);
    }
    forall u | u in base - {t}
      ensures base[u] + STACK <= sz - STACK
    {
      assert Apart(base[t], base[u]);
    }
  }

  class Space {
    var sz: nat
    const emptystacks: array<nat>
    var emptystackcnt: nat
    var mapped: set<nat>            // the pages that are present
    var base: map<nat, nat>         // originalbase of every thread, by its slot in the process table
    ghost const master: nat

    ghost function Kept(): seq<nat>
      requires emptystackcnt <= emptystacks.Length
      reads this, emptystacks
    {
      emptystacks[..emptystackcnt]
    }

    ghost predicate Valid()
      reads this, emptystacks
    {
      && emptystacks.Length == NPROC && master < NPROC && master !in base
      && (forall t :: t in base ==> t < NPROC)
      && emptystackcnt + |base.Keys| <= NPROC
      && Disjoint(sz, Kept(), base) && Present(sz, Kept(), mapped)
    }

    constructor (m: nat, pages: nat)
      requires m < NPROC
      ensures Valid() && sz == pages && base == map[] && emptystackcnt == 0 && master == m && fresh(emptystacks)
    {
      emptystacks := new nat[NPROC](_ => 0);
      sz, emptystackcnt, base, master := pages, 0, map[], m;
      mapped := UpTo(pages);
    }

    /** growproc by `n` pages, with allocuvm succeeding: the new pages are above everything. */
    method Grow(n: nat)
      requires Valid()
      modifies this`sz, this`mapped
      ensures Valid() && sz == old(sz) + n
      ensures forall p: nat :: p in mapped <==> p in old(mapped) || old(sz) <= p < sz
    {
      mapped := mapped + (UpTo(sz + n) - UpTo(sz));
      sz := sz + n;
    }

    /**
     * thread_create for the free slot `t`, with allocuvm succeeding: a stack kept for reuse, or two pages at
     * the top. The pages were not present before.
     */
    method Create(t: nat) returns (b: nat)
      requires Valid() && t < NPROC && t != master && t !in base
      modifies this`sz, this`emptystackcnt, this`mapped, this`base
      ensures Valid() && base == old(base)[t := b]
      ensures b !in old(mapped) && b + 1 !in old(mapped) && mapped == old(mapped) + {b, b + 1}
      ensures if old(emptystackcnt) > 0
              then sz == old(sz) && Kept() + [b] == old(Kept())
              else sz == old(sz) + STACK && Kept() == [] && b == old(sz)
    {
      hide Disjoint, Present;
      FewThreads(base, t, master, NPROC);
      ghost var e := Kept();
      b := sz;
      if emptystackcnt > 0 {
        Reused(sz, e, base, mapped, t);
        emptystackcnt := emptystackcnt - 1;
        b := emptystacks[emptystackcnt];
        assert Kept() == e[..|e| - 1];
      } else {
        Topped(sz, base, mapped, t);
      }
      Occupy(t, b);
    }

    method Occupy(t: nat, b: nat)
      requires t !in base
      modifies this`sz, this`mapped, this`base
      ensures mapped == old(mapped) + {b, b + 1} && base == old(base)[t := b] && |base.Keys| == |old(base).Keys| + 1
      ensures sz == if old(sz) < b + STACK then b + STACK else old(sz)
    {
      mapped := mapped + {b, b + 1};
      if sz < b + STACK {
        sz := b + STACK;
      }
      base := base[t := b];
      assert base.Keys == old(base).Keys + {t};
    }

    /** dealloc_thread: the stack's pages go, and the stack is kept for reuse unless it is at the top. */
    method Dealloc(t: nat)
      requires Valid() && t in base
      modifies this`sz, this`emptystackcnt, this`mapped, this`base, emptystacks
      ensures Valid() && base == old(base) - {t} && mapped == old(mapped) - {old(base)[t], old(base)[t] + 1}
      ensures if old(base)[t] + STACK < old(sz)
              then sz == old(sz) && Kept() == old(Kept()) + [old(base)[t]]
              else sz == old(sz) - STACK && Kept() == old(Kept())
    {
      hide Disjoint, Present;
      var b := base[t];
      BelowTop(sz, Kept(), base, t);
      assert (base - {t}).Keys == base.Keys - {t};
      mapped := mapped - {b, b + 1};
      if b + STACK < sz {
        Retired(sz, Kept(), base, old(mapped), t);
        emptystacks[emptystackcnt] := b;
        emptystackcnt := emptystackcnt + 1;
        assert Kept() == old(Kept()) + [b];
      } else {
        Shrunk(sz, Kept(), base, old(mapped), t);
        sz := sz - STACK;
      }
      base := base - {t};
    }
  }

  lemma BelowTop(sz: nat, empty: seq<nat>, base: map<nat, nat>, t: nat)
    requires Disjoint(sz, empty, base) && t in base
    ensures base[t] + STACK <= sz
  {
  }
}
