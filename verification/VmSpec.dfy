/** Two-level page tables over a pool of pages, and who owns each page of the pool (vm.c). */
module VmSpec {
  const N: nat := 1024               // entries of a directory and of a table
  const USER: nat := 512 * N         // page numbers below KERNBASE

  /** A directory or table entry: not present, or a page with its flags. */
  datatype Entry = None | Entry(frame: nat, flags: nat)

  type Tables = map<nat, seq<Entry>>

  /** What a page of the pool is for: a directory, the table of a directory's slot, or a page of user memory. */
  datatype Place = Dir | Tab(d: nat, i: nat) | User(d: nat, p: nat)

  type Owners = map<nat, Place>

  function Slot(t: Tables, f: nat, i: nat): Entry {
    if f in t && i < |t[f]| then t[f][i] else None
  }

  /** The page table entry of page `p` under directory `d`. */
  function Walk(dirs: Tables, tabs: Tables, d: nat, p: nat): Entry {
    var e := Slot(dirs, d, p / N);
    if e.None? then None else Slot(tabs, e.frame, p % N)
  }

  ghost predicate Owned(own: Owners, f: nat, x: Place) {
    f in own && own[f] == x
  }

  ghost predicate Sized(t: Tables) {
    forall f :: f in t ==> |t[f]| == N
  }

  /** Every directory, table and user page has its one place, and every place is that page's. */
  ghost predicate DirsOwned(dirs: Tables, own: Owners) {
    forall d :: d in dirs ==> Owned(own, d, Dir)
  }

  ghost predicate TabsOwned(dirs: Tables, tabs: Tables, own: Owners) {
    && (forall d: nat, i: nat :: Slot(dirs, d, i).Entry? ==>
      Owned(own, Slot(dirs, d, i).frame, Tab(d, i)) && Slot(dirs, d, i).frame in tabs)
    && (forall t :: t in tabs ==> t in own && own[t].Tab?)
  }

  ghost predicate UserOwned(dirs: Tables, tabs: Tables, data: set<nat>, own: Owners) {
    && (forall d: nat, p: nat :: p < USER && Walk(dirs, tabs, d, p).Entry? ==>
         Owned(own, Walk(dirs, tabs, d, p).frame, User(d, p)) && Walk(dirs, tabs, d, p).frame in data)
    && (forall f :: f in data ==> f in own && own[f].User?)
  }

  ghost predicate Placed(dirs: Tables, tabs: Tables, own: Owners) {
    forall f :: f in own ==>
      match own[f]
      case Dir => f in dirs
      case Tab(d, i) => Slot(dirs, d, i).Entry? && Slot(dirs, d, i).frame == f
      case User(d, p) => p < USER && Walk(dirs, tabs, d, p).Entry? && Walk(dirs, tabs, d, p).frame == f
  }

  ghost predicate Spaces(dirs: Tables, tabs: Tables, data: set<nat>, own: Owners) {
    && Sized(dirs) && Sized(tabs)
    && DirsOwned(dirs, own) && TabsOwned(dirs, tabs, own) && UserOwned(dirs, tabs, data, own) && Placed(dirs, tabs, own)
  }

  /** Nobody's mapping has changed. */
  ghost predicate SameWalks(dirs: Tables, tabs: Tables, dirs': Tables, tabs': Tables) {
    forall d: nat, p: nat :: Walk(dirs', tabs', d, p) == Walk(dirs, tabs, d, p)
  }

  lemma UserKept(dirs: Tables, tabs: Tables, dirs': Tables, tabs': Tables, data: set<nat>, own: Owners, own': Owners)
    requires UserOwned(dirs, tabs, data, own) && SameWalks(dirs, tabs, dirs', tabs')
    requires forall f: nat :: f in own && own[f].User? ==> f in own' && own'[f] == own[f]
    ensures UserOwned(dirs', tabs', data, own')
  {
    forall d: nat, p: nat | p < USER && Walk(dirs', tabs', d, p).Entry?
      ensures Owned(own', Walk(dirs', tabs', d, p).frame, User(d, p)) && Walk(dirs', tabs', d, p).frame in data
    {
      assert Walk(dirs', tabs', d, p) == Walk(dirs, tabs, d, p);
    }
  }

  /** A fresh table in an empty slot changes no mapping. */
  lemma TableAdded(dirs: Tables, tabs: Tables, data: set<nat>, own: Owners, d: nat, i: nat, f: nat, flags: nat)
    requires Spaces(dirs, tabs, data, own) && d in dirs && i < N && dirs[d][i].None? && f !in own
    ensures var dirs' := dirs[d := dirs[d][i := Entry(f, flags)]]; var tabs' := tabs[f := seq(N, _ => None)];
      Spaces(dirs', tabs', data, own[f := Tab(d, i)]) && SameWalks(dirs, tabs, dirs', tabs')
  {
    var dirs', tabs', own' := dirs[d := dirs[d][i := Entry(f, flags)]], tabs[f := seq(N, _ => None)],
      own[f := Tab(d, i)];
    assert f !in tabs && f !in dirs && f !in data;
    forall e: nat, p: nat
      ensures Walk(dirs', tabs', e, p) == Walk(dirs, tabs, e, p)
    {
      SlotSet(dirs, d, i, Entry(f, flags), e, p / N);
      var x := Slot(dirs, e, p / N);
      assert x.Entry? ==> Owned(own, x.frame, Tab(e, p / N));
    }
    UserKept(dirs, tabs, dirs', tabs', data, own, own');
    TabsAdded(dirs, tabs, own, d, i, f, flags);
    PlacedAdded(dirs, tabs, own, d, i, f, flags);
  }

  lemma TabsAdded(dirs: Tables, tabs: Tables, own: Owners, d: nat, i: nat, f: nat, flags: nat)
    requires TabsOwned(dirs, tabs, own) && d in dirs && i < |dirs[d]| && f !in own
    ensures TabsOwned(dirs[d := dirs[d][i := Entry(f, flags)]], tabs[f := seq(N, _ => None)], own[f := Tab(d, i)])
  {
    var dirs', tabs', own' := dirs[d := dirs[d][i := Entry(f, flags)]], tabs[f := seq(N, _ => None)],
      own[f := Tab(d, i)];
    forall e: nat, j: nat | Slot(dirs', e, j).Entry?
      ensures Owned(own', Slot(dirs', e, j).frame, Tab(e, j)) && Slot(dirs', e, j).frame in tabs'
    {
      SlotSet(dirs, d, i, Entry(f, flags), e, j);
      if e != d || j != i {
        assert Owned(own, Slot(dirs, e, j).frame, Tab(e, j));
      }
    }
  }

  lemma PlacedAdded(dirs: Tables, tabs: Tables, own: Owners, d: nat, i: nat, f: nat, flags: nat)
    requires Placed(dirs, tabs, own) && d in dirs && i < |dirs[d]| && dirs[d][i].None? && f !in own
    requires var dirs' := dirs[d := dirs[d][i := Entry(f, flags)]]; var tabs' := tabs[f := seq(N,
      _ => None)]; SameWalks(dirs, tabs, dirs', tabs')
    ensures Placed(dirs[d := dirs[d][i := Entry(f, flags)]], tabs[f := seq(N, _ => None)], own[f := Tab(d, i)])
  {
    var dirs', tabs', own' := dirs[d := dirs[d][i := Entry(f, flags)]], tabs[f := seq(N, _ => None)],
      own[f := Tab(d, i)];
    forall g | g in own'
      ensures match own'[g]
        case Dir => g in dirs'
        case Tab(e, j) => Slot(dirs', e, j).Entry? && Slot(dirs', e, j).frame == g
        case User(e, p) => p < USER && Walk(dirs', tabs', e, p).Entry? && Walk(dirs', tabs', e, p).frame == g
    {
      match own'[g]
      case Dir =>
      case Tab(e, j) => SlotSet(dirs, d, i, Entry(f, flags), e, j);
      case User(e, p) => assert Walk(dirs', tabs', e, p) == Walk(dirs, tabs, e, p);
    }
  }

  lemma SlotSet(t: Tables, f: nat, i: nat, x: Entry, g: nat, j: nat)
    requires f in t && i < |t[f]|
    ensures Slot(t[f := t[f][i := x]], g, j) == if g == f && j == i then x else Slot(t, g, j)
  {
  }

  /** The tables with the entry of page `p` under directory `d` set to `x`. */
  function SetEntry(dirs: Tables, tabs: Tables, d: nat, p: nat, x: Entry): Tables {
    var e := Slot(dirs, d, p / N);
    if e.Entry? && e.frame in tabs && p % N < |tabs[e.frame]| then tabs[e.frame := tabs[e.frame][p % N := x]] else tabs
  }

  /** Tables are not shared, so setting an entry changes the mapping of that one page. */
  lemma EntrySet(dirs: Tables, tabs: Tables, own: Owners, d: nat, p: nat, x: Entry, e: nat, q: nat)
    requires Sized(tabs) && TabsOwned(dirs, tabs, own) && Slot(dirs, d, p / N).Entry?
    ensures Walk(dirs, SetEntry(dirs, tabs, d, p, x), e, q) == if e == d && q == p then x else Walk(dirs, tabs, e, q)
    ensures SetEntry(dirs, tabs, d, p, x).Keys == tabs.Keys && Sized(SetEntry(dirs, tabs, d, p, x))
  {
    var a, b := Slot(dirs, d, p / N), Slot(dirs, e, q / N);
    assert Owned(own, a.frame, Tab(d, p / N));
    assert b.Entry? ==> Owned(own, b.frame, Tab(e, q / N));
    if b.Entry? {
      SlotSet(tabs, a.frame, p % N, x, b.frame, q % N);
    }
  }

  lemma EntrySets(dirs: Tables, tabs: Tables, own: Owners, d: nat, p: nat, x: Entry)
    requires Sized(tabs) && TabsOwned(dirs, tabs, own) && Slot(dirs, d, p / N).Entry?
    ensures var tabs' := SetEntry(dirs, tabs, d, p, x);
      && tabs'.Keys == tabs.Keys && Sized(tabs')
      && forall e: nat, q: nat :: Walk(dirs, tabs', e, q) == if e == d && q == p then x else Walk(dirs, tabs, e, q)
  {
    var tabs' := SetEntry(dirs, tabs, d, p, x);
    forall e: nat, q: nat
      ensures Walk(dirs, tabs', e, q) == if e == d && q == p then x else Walk(dirs, tabs, e, q)
    {
      EntrySet(dirs, tabs, own, d, p, x, e, q);
    }
    EntrySet(dirs, tabs, own, d, p, x, d, p);
  }

  /** A page of its own for page `p` of a user space. */
  lemma PageMapped(dirs: Tables, tabs: Tables, data: set<nat>, own: Owners, d: nat, p: nat, f: nat, flags: nat)
    requires Spaces(dirs, tabs, data, own) && Slot(dirs, d, p / N).Entry? && p < USER && Walk(dirs, tabs, d, p).None?
      && f !in own
    ensures Spaces(dirs, SetEntry(dirs, tabs, d, p, Entry(f, flags)), data + {f}, own[f := User(d, p)])
  {
    hide Slot, SetEntry, Walk;
    EntrySets(dirs, tabs, own, d, p, Entry(f, flags));
  }

  /** The page taken away. */
  lemma PageUnmapped(dirs: Tables, tabs: Tables, data: set<nat>, own: Owners, d: nat, p: nat)
    requires Spaces(dirs, tabs, data, own) && Slot(dirs, d, p / N).Entry? && p < USER && Walk(dirs, tabs, d, p).Entry?
    ensures var f := Walk(dirs, tabs, d, p).frame;
      Spaces(dirs, SetEntry(dirs, tabs, d, p, None), data - {f}, own - {f}) && Owned(own, f, User(d, p))
  {
    hide Slot, SetEntry, Walk;
    EntrySets(dirs, tabs, own, d, p, None);
    var f := Walk(dirs, tabs, d, p).frame;
    assert Owned(own, f, User(d, p));
  }

  /** The kernel's part of a space refers to pages it does not own. */
  lemma KernelMapped(dirs: Tables, tabs: Tables, data: set<nat>, own: Owners, d: nat, p: nat, x: Entry)
    requires Spaces(dirs, tabs, data, own) && Slot(dirs, d, p / N).Entry? && p >= USER
    ensures Spaces(dirs, SetEntry(dirs, tabs, d, p, x), data, own)
  {
    hide Slot, SetEntry, Walk;
    EntrySets(dirs, tabs, own, d, p, x);
  }

  /** An empty directory. */
  lemma DirAdded(dirs: Tables, tabs: Tables, data: set<nat>, own: Owners, f: nat)
    requires Spaces(dirs, tabs, data, own) && f !in own
    ensures var dirs' := dirs[f := seq(N, _ => None)];
      Spaces(dirs', tabs, data, own[f := Dir]) && SameWalks(dirs, tabs, dirs', tabs)
        && forall p: nat :: Walk(dirs', tabs, f, p).None?
  {
    var dirs', own' := dirs[f := seq(N, _ => None)], own[f := Dir];
    assert f !in dirs;
    forall e: nat, i: nat
      ensures Slot(dirs', e, i) == Slot(dirs, e, i)
    {
    }
    UserKept(dirs, tabs, dirs', tabs, data, own, own');
  }

  /** A table none of whose pages is in user memory. */
  lemma TableDropped(dirs: Tables, tabs: Tables, data: set<nat>, own: Owners, d: nat, i: nat)
    requires Spaces(dirs, tabs, data, own) && d in dirs && i < N && dirs[d][i].Entry?
    requires forall p: nat :: p < USER ==> Walk(dirs, tabs, d, p).None?
    ensures var t := dirs[d][i].frame; var dirs' := dirs[d := dirs[d][i := None]];
      && Owned(own, t, Tab(d, i)) && Spaces(dirs', tabs - {t}, data, own - {t})
      && (forall e: nat, p: nat :: e != d ==> Walk(dirs', tabs - {t}, e, p) == Walk(dirs, tabs, e, p))
      && (forall p: nat :: p < USER ==> Walk(dirs', tabs - {t}, d, p).None?)
  {
    var t := dirs[d][i].frame;
    var dirs', tabs', own' := dirs[d := dirs[d][i := None]], tabs - {t}, own - {t};
    assert Slot(dirs, d, i) == dirs[d][i];
    assert Owned(own, t, Tab(d, i));
    forall e: nat, p: nat
      ensures Walk(dirs', tabs', e, p) == if e == d && p / N == i then None else Walk(dirs, tabs, e, p)
    {
      DroppedWalk(dirs, tabs, own, d, i, e, p);
    }
    forall e: nat, j: nat
      ensures Slot(dirs', e, j) == if e == d && j == i then None else Slot(dirs, e, j)
    {
      SlotSet(dirs, d, i, None, e, j);
    }
    assert TabsOwned(dirs', tabs', own');
    assert UserOwned(dirs', tabs', data, own');
    assert Placed(dirs', tabs', own');
  }

  lemma DroppedWalk(dirs: Tables, tabs: Tables, own: Owners, d: nat, i: nat, e: nat, p: nat)
    requires TabsOwned(dirs, tabs, own) && d in dirs && i < |dirs[d]| && dirs[d][i].Entry?
    ensures Walk(dirs[d := dirs[d][i := None]], tabs - {dirs[d][i].frame}, e, p) == if e == d
      && p / N == i then None else Walk(dirs, tabs, e, p)
  {
    var t := dirs[d][i].frame;
    assert Slot(dirs, d, i) == dirs[d][i];
    assert Owned(own, t, Tab(d, i));
    SlotSet(dirs, d, i, None, e, p / N);
    var x := Slot(dirs, e, p / N);
    assert x.Entry? ==> Owned(own, x.frame, Tab(e, p / N));
  }

  /** A directory with no tables left. */
  lemma DirDropped(dirs: Tables, tabs: Tables, data: set<nat>, own: Owners, d: nat)
    requires Spaces(dirs, tabs, data, own) && d in dirs && forall i: nat :: i < N ==> dirs[d][i].None?
    ensures Spaces(dirs - {d}, tabs, data, own - {d}) && SameWalks(dirs, tabs, dirs - {d}, tabs) && Owned(own, d, Dir)
  {
    var dirs', own' := dirs - {d}, own - {d};
    forall e: nat, i: nat
      ensures Slot(dirs', e, i) == Slot(dirs, e, i)
    {
    }
    UserKept(dirs, tabs, dirs', tabs, data, own, own');
  }
}
