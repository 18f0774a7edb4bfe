/** vm.c: how many pages the tables and the pages of a range take. */
module VmCost {
  import opened Collections
  import opened VmSpec

  /** The slots of directory `d` that have a table. */
  ghost function Present(dirs: Tables, d: nat): set<nat> {
    set i: nat | i < N && Slot(dirs, d, i).Entry?
  }

  /** The slots that the pages from `lo` to `hi` fall in. */
  ghost function SlotsOf(lo: nat, hi: nat): set<nat>
    decreases hi
  {
    if hi <= lo then {} else SlotsOf(lo, hi - 1) + {(hi - 1) / N}
  }

  /** Tables that have to be made for the slots. */
  ghost function Missing(slots: set<nat>, present: set<nat>): nat {
    |slots - present|
  }

  /** Pages that mapping a page each from `lo` to `hi` takes: those and the missing tables. */
  ghost function Need(present: set<nat>, lo: nat, hi: nat): nat {
    (if hi <= lo then 0 else hi - lo) + Missing(SlotsOf(lo, hi), present)
  }

  /** One slot more needs a table exactly if it has none by now. */
  lemma MissingMore(slots: set<nat>, present: set<nat>, i: nat)
    ensures Missing(slots + {i}, present) == Missing(slots, present) + if i in present + slots then 0 else 1
  {
    if i in present + slots {
      assert (slots + {i}) - present == slots - present;
    } else {
      assert (slots + {i}) - present == (slots - present) + {i};
    }
  }

  lemma MissingUnion(slots: set<nat>, more: set<nat>, present: set<nat>)
    ensures Missing(slots + more, present) == Missing(slots, present) + Missing(more, present + slots)
  {
    assert (slots + more) - present == (slots - present) + (more - (present + slots));
    assert (slots - present) !! (more - (present + slots));
  }

  lemma MissingSubset(slots: set<nat>, more: set<nat>, present: set<nat>)
    requires slots <= more
    ensures Missing(slots, present) <= Missing(more, present)
  {
    Subset(slots - present, more - present);
  }

  lemma MissingNone(present: set<nat>, lo: nat)
    ensures SlotsOf(lo, lo) == {} && Missing({}, present) == 0
  {
    assert {} - present == {};
  }

  lemma SlotsStep(lo: nat, a: nat)
    requires lo <= a
    ensures SlotsOf(lo, a + 1) == SlotsOf(lo, a) + {a / N}
  {
  }

  lemma NeedStep(present: set<nat>, lo: nat, a: nat)
    requires lo <= a
    ensures SlotsOf(lo, a + 1) == SlotsOf(lo, a) + {a / N}
    ensures Need(present, lo, a + 1) == Need(present, lo, a) + 1 + if a / N in present + SlotsOf(lo, a) then 0 else 1
  {
    MissingMore(SlotsOf(lo, a), present, a / N);
  }

  lemma {:induction false} SlotsGrow(lo: nat, a: nat, hi: nat)
    requires a <= hi
    ensures SlotsOf(lo, a) <= SlotsOf(lo, hi)
    decreases hi
  {
    if a < hi {
      SlotsGrow(lo, a, hi - 1);
    }
  }

  lemma NeedGrows(present: set<nat>, lo: nat, a: nat, hi: nat)
    requires a <= hi
    ensures Need(present, lo, a) <= Need(present, lo, hi)
    ensures lo <= a < hi ==> Need(present, lo, a) < Need(present, lo, hi)
  {
    SlotsGrow(lo, a, hi);
    MissingSubset(SlotsOf(lo, a), SlotsOf(lo, hi), present);
  }

  /** The first page of the range that is mapped, or its end. */
  ghost function FirstTaken(dirs: Tables, tabs: Tables, d: nat, lo: nat, hi: nat): (p: nat)
    ensures lo <= hi ==> lo <= p <= hi
    ensures hi <= lo ==> p == hi
    ensures forall q: nat :: lo <= q < p ==> Walk(dirs, tabs, d, q).None?
    ensures p < hi ==> Walk(dirs, tabs, d, p).Entry?
    decreases hi - lo
  {
    if hi <= lo then hi else if Walk(dirs, tabs, d, lo).Entry? then lo else FirstTaken(dirs, tabs, d, lo + 1, hi)
  }

  // ----- the pages of a space -----

  /** The pages below `hi` that are mapped. */
  ghost function PagesOf(dirs: Tables, tabs: Tables, d: nat, hi: nat): set<nat> {
    if hi == 0 then {} else PagesOf(dirs, tabs, d, hi - 1) + if Walk(dirs, tabs, d, hi - 1).Entry? then {hi - 1} else {}
  }

  /** The slots they fall in. */
  ghost function UsedSlots(dirs: Tables, tabs: Tables, d: nat, hi: nat): set<nat> {
    if hi == 0 then {} else UsedSlots(dirs, tabs, d, hi - 1) + if Walk(dirs, tabs, d,
      hi - 1).Entry? then {(hi - 1) / N} else {}
  }

  /** What a copy of those pages takes in a space that has the tables `present`. */
  ghost function CopyNeed(dirs: Tables, tabs: Tables, d: nat, hi: nat, present: set<nat>): nat {
    |PagesOf(dirs, tabs, d, hi)| + Missing(UsedSlots(dirs, tabs, d, hi), present)
  }

  lemma {:induction false} PagesBelow(dirs: Tables, tabs: Tables, d: nat, hi: nat)
    ensures forall p :: p in PagesOf(dirs, tabs, d, hi) ==> p < hi
  {
    if hi > 0 {
      PagesBelow(dirs, tabs, d, hi - 1);
    }
  }

  lemma PagesStep(dirs: Tables, tabs: Tables, d: nat, i: nat)
    ensures PagesOf(dirs, tabs, d, i + 1) == PagesOf(dirs, tabs, d, i) + if Walk(dirs, tabs, d,
      i).Entry? then {i} else {}
    ensures UsedSlots(dirs, tabs, d, i + 1)
         == UsedSlots(dirs, tabs, d, i) + if Walk(dirs, tabs, d, i).Entry? then {i / N} else {}
  {
    hide Walk;
  }

  lemma CopyNeedStep(dirs: Tables, tabs: Tables, d: nat, i: nat, present: set<nat>)
    ensures Walk(dirs, tabs, d, i).None? ==>
      && UsedSlots(dirs, tabs, d, i + 1) == UsedSlots(dirs, tabs, d, i)
      && CopyNeed(dirs, tabs, d, i + 1, present) == CopyNeed(dirs, tabs, d, i, present)
    ensures Walk(dirs, tabs, d, i).Entry? ==>
      && UsedSlots(dirs, tabs, d, i + 1) == UsedSlots(dirs, tabs, d, i) + {i / N}
      && CopyNeed(dirs, tabs, d, i + 1, present)
         == CopyNeed(dirs, tabs, d, i, present) + 1 + if i / N in present + UsedSlots(dirs, tabs, d, i) then 0 else 1
  {
    hide Walk, PagesOf, UsedSlots, Missing;
    PagesStep(dirs, tabs, d, i);
    PagesBelow(dirs, tabs, d, i);
    MissingMore(UsedSlots(dirs, tabs, d, i), present, i / N);
  }

  lemma CopyNeedNone(dirs: Tables, tabs: Tables, d: nat, present: set<nat>)
    ensures CopyNeed(dirs, tabs, d, 0, present) == 0 && UsedSlots(dirs, tabs, d, 0) == {}
  {
    assert {} - present == {};
  }

  lemma {:induction false} CopyNeedGrows(dirs: Tables, tabs: Tables, d: nat, i: nat, hi: nat, present: set<nat>)
    requires i <= hi
    ensures CopyNeed(dirs, tabs, d, i, present) <= CopyNeed(dirs, tabs, d, hi, present)
    decreases hi
  {
    hide Walk, PagesOf, UsedSlots, CopyNeed;
    if i < hi {
      CopyNeedGrows(dirs, tabs, d, i, hi - 1, present);
      CopyNeedStep(dirs, tabs, d, hi - 1, present);
    }
  }
}
