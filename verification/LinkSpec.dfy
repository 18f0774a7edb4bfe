/** sysfile.c and fs.c: directory entries, and the link counts that must agree with them. */
module LinkSpec {
  import opened Kinds

  const ROOTINO: nat := 1
  const DIRSIZ: nat := 14
  const SHORT_MAX: int := 32767

  /** Names as skipelem cuts them, so that namecmp is equality. */
  type Name = s: string | |s| <= DIRSIZ

  /** A directory entry; inum 0 marks a free slot. */
  datatype Dirent = Dirent(inum: nat, name: Name)

  /** An inode: `entries` are the contents of a directory, `ref` the references from memory. */
  datatype Node = Node(kind: Kind, nlink: int, entries: seq<Dirent>, ref: nat)

  type Table = seq<Node>

  /** `nlink` is a C short. */
  function ToShort(x: int): int {
    (x + 32768) % 65536 - 32768
  }

  predicate IsDir(t: Table, d: nat) {
    d < |t| && t[d].kind == Dir
  }

  /** A directory that can still be reached by a name. */
  predicate Linked(t: Table, d: nat) {
    IsDir(t, d) && t[d].nlink > 0
  }

  /** The entry in slot `k` of inode `d`; past the end there are only free ones. */
  function At(t: Table, d: nat, k: nat): Dirent {
    if d < |t| && k < |t[d].entries| then t[d].entries[k] else Dirent(0, "")
  }

  /** Slot `k` of a linked directory `d` names inode `i`, and not as itself. */
  predicate Names(t: Table, i: nat, d: nat, k: nat) {
    Linked(t, d) && At(t, d, k).inum == i && At(t, d, k).name != "."
  }

  /** All the slots that count as links to inode `i`. */
  ghost function Links(t: Table, i: nat): set<(nat, nat)> {
    set d: nat, k: nat | d < |t| && k < |t[d].entries| && Names(t, i, d, k) :: (d, k)
  }

  /** The inode that slot 1, "..", names. */
  function Parent(t: Table, d: nat): nat {
    At(t, d, 1).inum
  }

  predicate InUse(t: Table, i: nat) {
    i < |t| && t[i].kind != Free
  }

  /** A linked directory begins with itself and its parent, names are unique in it, and what it names is in use. */
  ghost predicate Dirs(t: Table) {
    && !InUse(t, 0)
    && (forall d: nat :: Linked(t, d) ==> IsDir(t, d) && At(t, d, 0) == Dirent(d, ".") && At(t, d, 1).name == "..")
    && (forall d: nat {:trigger Parent(t, d)} :: Linked(t, d) ==> Linked(t, Parent(t, d)))
    && (forall d: nat, j: nat, k: nat :: Linked(t, d) && j < k && At(t, d, j).inum != 0 && At(t, d, k).inum != 0 ==>
          At(t, d, j).name != At(t, d, k).name)
    && (forall d: nat, k: nat :: Linked(t, d) && At(t, d, k).inum != 0 ==> InUse(t, At(t, d, k).inum))
  }

  /** Some slot from the third on names the directory `d` in its parent. */
  ghost predicate HasHome(t: Table, d: nat) {
    exists k: nat :: k >= 2 && Names(t, d, Parent(t, d), k)
  }

  /** Outside itself and its children a directory is named once, by its parent; the root is not named at all. */
  ghost predicate OneParent(t: Table) {
    && Linked(t, ROOTINO) && Parent(t, ROOTINO) == ROOTINO
    && (forall d: nat {:trigger HasHome(t, d)} :: Linked(t, d) && d != ROOTINO ==> HasHome(t, d))
    && (forall d: nat, x: nat, j: nat :: j >= 2 && IsDir(t, d) && Names(t, d, x, j) ==>
      d != ROOTINO && Parent(t, d) == x)
    && (forall d: nat, x: nat, j: nat, k: nat ::
          j >= 2 && k >= 2 && IsDir(t, d) && Names(t, d, x, j) && Names(t, d, x, k) ==>
          j == k)
  }

  /** Every count is the number of names. */
  ghost predicate Counts(t: Table) {
    && (forall i: nat :: 0 < i < |t| ==> t[i].nlink == |Links(t, i)| <= SHORT_MAX)
    && (forall i: nat :: i < |t| && t[i].kind == Free ==> t[i].nlink == 0)
  }

  /** A directory that has lost its name was empty then, and nothing is entered in it. */
  ghost predicate Hollow(t: Table) {
    forall d: nat, k: nat :: IsDir(t, d) && !Linked(t, d) && At(t, d, k).inum != 0 ==>
      At(t, d, k).inum < |t| && (At(t, d, k).name == "." || At(t, d, k).name == "..")
  }

  ghost predicate Agree(t: Table) {
    |t| > ROOTINO && Dirs(t) && OneParent(t) && Counts(t) && Hollow(t)
  }

  /** An inode without names is kept by the references to it. */
  predicate Referenced(t: Table) {
    forall i :: 0 < i < |t| && t[i].kind != Free && t[i].nlink == 0 ==> t[i].ref > 0
  }

  lemma LinksAre(t: Table, i: nat)
    requires i != 0
    ensures forall p: (nat, nat) :: p in Links(t, i) <==> Names(t, i, p.0, p.1)
  {
  }

  /** A count of zero means that nothing names the inode. */
  lemma NoLinks(t: Table, i: nat)
    requires Counts(t) && 0 < i < |t|
    ensures t[i].nlink == 0 <==> forall d: nat, k: nat :: !Names(t, i, d, k)
  {
    LinksAre(t, i);
    if d: nat, k: nat :| Names(t, i, d, k) {
      assert (d, k) in Links(t, i);
    }
    if t[i].nlink != 0 {
      var x :| x in Links(t, i);
      assert Names(t, i, x.0, x.1);
    }
  }

  // ----- a new name -----

  /** dirlink writes to the first free slot, or past the end. */
  ghost predicate FreeSlot(es: seq<Dirent>, k: nat) {
    && k <= |es| && (k < |es| ==> es[k].inum == 0)
    && forall j :: 0 <= j < k ==> es[j].inum != 0
  }

  function Put(es: seq<Dirent>, k: nat, e: Dirent): seq<Dirent>
    requires k <= |es|
  {
    if k < |es| then es[k := e] else es + [e]
  }

  /** No entry of the directory has the name. */
  predicate Absent(es: seq<Dirent>, name: Name) {
    forall k :: 0 <= k < |es| && es[k].inum != 0 ==> es[k].name != name
  }

  /** The slot is free and the name is new, so neither is one of the first two. */
  lemma SlotFacts(t: Table, d: nat, k: nat, name: Name)
    requires Dirs(t) && Linked(t, d)
    requires FreeSlot(t[d].entries, k) && Absent(t[d].entries, name)
    ensures k >= 2 && name != "." && name != ".." && At(t, d, k).inum == 0
    ensures forall j: nat :: At(t, d, j).inum != 0 ==> At(t, d, j).name != name
    ensures forall y: nat :: y != 0 ==> !Names(t, y, d, k)
    ensures forall x: nat :: Linked(t, x) ==> x != 0
  {
    var es := t[d].entries;
    assert At(t, d, 0) == Dirent(d, ".");
    assert At(t, d, 1).name == ".." && Linked(t, Parent(t, d));
  }

  /** `u` is `t` with the name `name` for inode `i` in slot `k` of directory `d`, and one link more. */
  ghost predicate Named(t: Table, u: Table, d: nat, k: nat, i: nat, name: Name) {
    && |u| == |t| && d < |t| && 0 < i < |t| && i != d && k <= |t[d].entries|
    && u[d] == t[d].(entries := Put(t[d].entries, k, Dirent(i, name)))
    && (forall j :: 0 <= j < |t| && j != d && j != i ==> u[j] == t[j])
    && u[i].kind != Free && u[i].kind != Dir && u[i].nlink == t[i].nlink + 1 && u[i].entries == t[i].entries
    && (t[i].kind == Free || t[i].kind == u[i].kind)
  }

  lemma NamedShape(t: Table, u: Table, d: nat, k: nat, i: nat, name: Name)
    requires Named(t, u, d, k, i, name)
    ensures i != 0
    ensures forall x: nat, j: nat :: At(u, x, j) == if x == d && j == k then Dirent(i, name) else At(t, x, j)
    ensures forall x: nat :: Linked(u, x) <==> Linked(t, x)
    ensures forall x: nat :: IsDir(u, x) <==> IsDir(t, x)
    ensures !IsDir(u, i)
    ensures forall x: nat :: InUse(u, x) <==> InUse(t, x) || x == i
    ensures k >= 2 ==> forall x: nat :: Parent(u, x) == Parent(t, x)
    ensures forall y: nat, x: nat, j: nat ::
      Names(u, y, x, j) <==> if x == d && j == k then Linked(t, d) && y == i && name != "." else Names(t, y, x, j)
  {
  }

  lemma NamedDirs(t: Table, u: Table, d: nat, k: nat, i: nat, name: Name)
    requires Dirs(t) && Linked(t, d) && FreeSlot(t[d].entries, k) && Absent(t[d].entries, name)
    requires Named(t, u, d, k, i, name)
    ensures Dirs(u)
  {
    hide At, Linked, IsDir, InUse, Named, FreeSlot, Absent, Parent;
    SlotFacts(t, d, k, name);
    NamedShape(t, u, d, k, i, name);
  }

  lemma NamedParents(t: Table, u: Table, d: nat, k: nat, i: nat, name: Name)
    requires Dirs(t) && OneParent(t) && Linked(t, d) && FreeSlot(t[d].entries, k) && Absent(t[d].entries, name)
    requires Named(t, u, d, k, i, name)
    ensures OneParent(u)
  {
    hide At, Linked, IsDir, InUse, Named, FreeSlot, Absent, Parent, Names, Dirs;
    SlotFacts(t, d, k, name);
    NamedShape(t, u, d, k, i, name);
    forall x: nat | Linked(u, x) && x != ROOTINO
      ensures HasHome(u, x)
    {
      assert HasHome(t, x);
      var j: nat :| j >= 2 && Names(t, x, Parent(t, x), j);
      assert Names(u, x, Parent(u, x), j);
    }
  }

  /** A new name for something that is not a directory, be it old (link) or new (create). */
  lemma NamedAgrees(t: Table, u: Table, d: nat, k: nat, i: nat, name: Name)
    requires Agree(t) && Linked(t, d) && FreeSlot(t[d].entries, k) && Absent(t[d].entries, name)
    requires Named(t, u, d, k, i, name) && t[i].nlink < SHORT_MAX
    ensures Agree(u)
  {
    hide At, Linked, IsDir, InUse, FreeSlot, Absent, Dirs, OneParent, Links, Names, Parent;
    SlotFacts(t, d, k, name);
    NamedShape(t, u, d, k, i, name);
    NamedDirs(t, u, d, k, i, name);
    NamedParents(t, u, d, k, i, name);
    forall x: nat | 0 < x < |t|
      ensures u[x].nlink == |Links(u, x)| <= SHORT_MAX
    {
      LinksAre(t, x);
      LinksAre(u, x);
      assert Links(u, x) == Links(t, x) + if x == i then {(d, k)} else {};
    }
  }

  /** A new name is the inode's and changes no other's. */
  lemma NamedLinks(t: Table, u: Table, d: nat, k: nat, i: nat, name: Name, x: nat)
    requires Dirs(t) && Linked(t, d) && FreeSlot(t[d].entries, k) && Absent(t[d].entries, name)
    requires Named(t, u, d, k, i, name) && x != 0
    ensures Links(u, x) == if x == i then Links(t, i) + {(d, k)} else Links(t, x)
  {
    hide At, Linked, IsDir, InUse, Links, Names, Named, Dirs, FreeSlot, Absent;
    SlotFacts(t, d, k, name);
    NamedShape(t, u, d, k, i, name);
    LinksAre(t, x);
    LinksAre(u, x);
  }

  // ----- a new directory -----

  /** `u` is `t` with a new directory `n` under the name `name` in slot `k` of `d`. */
  ghost predicate Made(t: Table, u: Table, d: nat, k: nat, n: nat, name: Name) {
    && |u| == |t| && d < |t| && 0 < n < |t| && n != d && k <= |t[d].entries| && t[n].kind == Free
    && u[d] == t[d].(entries := Put(t[d].entries, k, Dirent(n, name)), nlink := t[d].nlink + 1)
    && (forall j :: 0 <= j < |t| && j != d && j != n ==> u[j] == t[j])
    && u[n].kind == Dir && u[n].nlink == 1 && u[n].entries == [Dirent(n, "."), Dirent(d, "..")]
  }

  lemma MadeShape(t: Table, u: Table, d: nat, k: nat, n: nat, name: Name)
    requires Made(t, u, d, k, n, name) && Linked(t, d)
    ensures n != 0 && n != d && !Linked(t, n) && !InUse(t, n) && n < |t| && d < |t| && t[d].kind == Dir
    ensures forall y: nat, j: nat :: !Names(t, y, n, j)
    ensures At(u, n, 0) == Dirent(n, ".") && At(u, n, 1) == Dirent(d, "..") && forall j: nat :: j >= 2 ==>
      At(u, n, j).inum == 0
    ensures forall x: nat, j: nat :: x != n ==> At(u, x, j) == if x == d && j == k then Dirent(n, name) else At(t, x, j)
    ensures forall x: nat :: Linked(u, x) <==> Linked(t, x) || x == n
    ensures forall x: nat :: IsDir(u, x) <==> IsDir(t, x) || x == n
    ensures forall x: nat :: InUse(u, x) <==> InUse(t, x) || x == n
    ensures k >= 2 ==> forall x: nat :: Parent(u, x) == if x == n then d else Parent(t, x)
    ensures forall y: nat, x: nat, j: nat :: y != 0 ==>
      (Names(u, y, x, j) <==>
        if x == d && j == k then y == n && name != "." else if x == n then j == 1 && y == d else Names(t, y, x, j))
  {
  }

  /** A free inode is not named. */
  lemma FreeUnnamed(t: Table, n: nat)
    requires Counts(t) && 0 < n < |t| && t[n].kind == Free
    ensures forall x: nat, j: nat :: !Names(t, n, x, j)
    ensures forall x: nat :: Linked(t, x) ==> x != n
  {
    NoLinks(t, n);
  }

  lemma MadeDirs(t: Table, u: Table, d: nat, k: nat, n: nat, name: Name)
    requires Dirs(t) && Linked(t, d) && FreeSlot(t[d].entries, k) && Absent(t[d].entries, name)
    requires Made(t, u, d, k, n, name)
    ensures Dirs(u)
  {
    hide At, Linked, IsDir, InUse, Made, FreeSlot, Absent, Parent;
    SlotFacts(t, d, k, name);
    MadeShape(t, u, d, k, n, name);
  }

  lemma MadeParents(t: Table, u: Table, d: nat, k: nat, n: nat, name: Name)
    requires Dirs(t) && OneParent(t) && Linked(t, d) && FreeSlot(t[d].entries, k) && Absent(t[d].entries, name)
    requires Made(t, u, d, k, n, name) && forall x: nat, j: nat :: !Names(t, n, x, j)
    ensures OneParent(u)
  {
    hide At, Linked, IsDir, InUse, Made, FreeSlot, Absent, Parent, Names, Dirs;
    SlotFacts(t, d, k, name);
    MadeShape(t, u, d, k, n, name);
    DirNotZero(t);
    forall x: nat | Linked(u, x) && x != ROOTINO
      ensures HasHome(u, x)
    {
      if x == n {
        assert Names(u, n, d, k);
      } else {
        assert HasHome(t, x);
        var j: nat :| j >= 2 && Names(t, x, Parent(t, x), j);
        assert Names(u, x, Parent(u, x), j);
      }
    }
  }

  lemma DirNotZero(t: Table)
    requires Dirs(t)
    ensures forall x: nat :: IsDir(t, x) || InUse(t, x) || Linked(t, x) ==> x != 0
  {
  }

  lemma MadeAgrees(t: Table, u: Table, d: nat, k: nat, n: nat, name: Name)
    requires Agree(t) && Linked(t, d) && FreeSlot(t[d].entries, k) && Absent(t[d].entries, name)
    requires Made(t, u, d, k, n, name) && t[d].nlink < SHORT_MAX
    ensures Agree(u)
  {
    hide At, Linked, IsDir, InUse, FreeSlot, Absent, Dirs, OneParent, Links, Names, Parent;
    SlotFacts(t, d, k, name);
    FreeUnnamed(t, n);
    MadeShape(t, u, d, k, n, name);
    MadeDirs(t, u, d, k, n, name);
    MadeParents(t, u, d, k, n, name);
    forall x: nat | 0 < x < |t|
      ensures u[x].nlink == |Links(u, x)| <= SHORT_MAX
    {
      LinksAre(t, x);
      LinksAre(u, x);
      assert Links(u, x) == Links(t, x) + if x == n then {(d, k)} else if x == d then {(n, 1)} else {};
    }
  }

  /** A new directory has its name, its parent one more in the new "..", and nothing else changes. */
  lemma MadeLinks(t: Table, u: Table, d: nat, k: nat, n: nat, name: Name, x: nat)
    requires Agree(t) && Linked(t, d) && FreeSlot(t[d].entries, k) && Absent(t[d].entries, name)
    requires Made(t, u, d, k, n, name) && x != 0
    ensures Links(u, x) == if x == n then {(d, k)} else if x == d then Links(t, d) + {(n, 1)} else Links(t, x)
  {
    hide At, Linked, IsDir, InUse, FreeSlot, Absent, Dirs, OneParent, Links, Names, Parent;
    SlotFacts(t, d, k, name);
    FreeUnnamed(t, n);
    MadeShape(t, u, d, k, n, name);
    LinksAre(t, x);
    LinksAre(u, x);
  }

  // ----- a name removed -----

  /** `u` is `t` without the name of inode `i`, not a directory, in slot `k` of `d`. */
  ghost predicate Removed(t: Table, u: Table, d: nat, k: nat, i: nat) {
    && |u| == |t| && d < |t| && 0 < i < |t| && i != d && k < |t[d].entries| && t[d].entries[k].inum == i
    && u[d] == t[d].(entries := t[d].entries[k := Dirent(0, "")])
    && (forall j :: 0 <= j < |t| && j != d && j != i ==> u[j] == t[j])
    && t[i].kind != Dir && t[i].kind != Free && u[i] == t[i].(nlink := t[i].nlink - 1)
  }

  lemma RemovedShape(t: Table, u: Table, d: nat, k: nat, i: nat)
    requires Removed(t, u, d, k, i) && Linked(t, d)
    ensures forall x: nat, j: nat :: At(u, x, j) == if x == d && j == k then Dirent(0, "") else At(t, x, j)
    ensures forall x: nat :: Linked(u, x) <==> Linked(t, x)
    ensures forall x: nat :: IsDir(u, x) <==> IsDir(t, x)
    ensures forall x: nat :: InUse(u, x) <==> InUse(t, x)
    ensures k >= 2 ==> forall x: nat :: Parent(u, x) == Parent(t, x)
    ensures i != 0 && !IsDir(t, i) && At(t, d, k).inum == i
    ensures forall y: nat, x: nat, j: nat :: y != 0 ==>
      (Names(u, y, x, j) <==> Names(t, y, x, j) && !(x == d && j == k))
  {
  }

  lemma RemovedDirs(t: Table, u: Table, d: nat, k: nat, i: nat)
    requires Dirs(t) && Linked(t, d) && k >= 2 && Removed(t, u, d, k, i)
    ensures Dirs(u)
  {
    hide At, Linked, IsDir, InUse, Removed, Parent;
    RemovedShape(t, u, d, k, i);
  }

  lemma RemovedParents(t: Table, u: Table, d: nat, k: nat, i: nat)
    requires Dirs(t) && OneParent(t) && Linked(t, d) && k >= 2 && Removed(t, u, d, k, i)
    ensures OneParent(u)
  {
    hide At, Linked, IsDir, InUse, Removed, Parent, Dirs;
    RemovedShape(t, u, d, k, i);
    DirNotZero(t);
    forall x: nat | Linked(u, x) && x != ROOTINO
      ensures HasHome(u, x)
    {
      assert HasHome(t, x);
      var j: nat :| j >= 2 && Names(t, x, Parent(t, x), j);
      LinkedDir(t, x);
      assert Names(u, x, Parent(u, x), j);
    }
  }

  lemma LinkedDir(t: Table, x: nat)
    requires Linked(t, x)
    ensures IsDir(t, x)
  {
  }

  /** A slot other than the first names something by a name other than ".". */
  lemma NamedSlot(t: Table, d: nat, k: nat)
    requires Dirs(t) && Linked(t, d) && k >= 1 && At(t, d, k).inum != 0
    ensures At(t, d, k).name != "." && Names(t, At(t, d, k).inum, d, k)
  {
    assert At(t, d, 0) == Dirent(d, ".");
  }

  lemma RemovedAgrees(t: Table, u: Table, d: nat, k: nat, i: nat)
    requires Agree(t) && Linked(t, d) && k >= 2 && Removed(t, u, d, k, i)
    ensures Agree(u)
  {
    hide At, Linked, IsDir, InUse, Dirs, OneParent, Links, Names, Parent;
    RemovedShape(t, u, d, k, i);
    RemovedDirs(t, u, d, k, i);
    RemovedParents(t, u, d, k, i);
    NamedSlot(t, d, k);
    forall x: nat | 0 < x < |t|
      ensures u[x].nlink == |Links(u, x)| <= SHORT_MAX
    {
      LinksAre(t, x);
      LinksAre(u, x);
      assert Links(u, x) == Links(t, x) - {(d, k)};
      if x != i && (d, k) in Links(t, x) {
        SlotNamesOne(t, d, k, x, i);
      }
    }
  }

  lemma SlotNamesOne(t: Table, d: nat, k: nat, x: nat, y: nat)
    requires Names(t, x, d, k) && Names(t, y, d, k)
    ensures x == y
  {
  }

  /** Removing a name takes it from the inode's names and changes no other's. */
  lemma RemovedLinks(t: Table, u: Table, d: nat, k: nat, i: nat, x: nat)
    requires Linked(t, d) && Removed(t, u, d, k, i) && x != 0
    ensures Links(u, x) == if x == i then Links(t, i) - {(d, k)} else Links(t, x)
  {
    hide At, Linked, IsDir, InUse, Links, Names, Removed;
    RemovedShape(t, u, d, k, i);
    LinksAre(t, x);
    LinksAre(u, x);
    assert Links(u, x) == Links(t, x) - {(d, k)};
    if x != i {
      OtherSlot(t, d, k, i, x);
    }
  }

  /** A slot that holds one inode does not name another. */
  lemma OtherSlot(t: Table, d: nat, k: nat, i: nat, x: nat)
    requires At(t, d, k).inum == i && x != i
    ensures !Names(t, x, d, k)
  {
  }

  // ----- a directory removed -----

  /** `u` is `t` without the empty directory `i`, which slot `k` of `d` names. */
  ghost predicate Unmade(t: Table, u: Table, d: nat, k: nat, i: nat) {
    && |u| == |t| && d < |t| && 0 < i < |t| && i != d && k < |t[d].entries| && t[d].entries[k].inum == i
    && u[d] == t[d].(entries := t[d].entries[k := Dirent(0, "")], nlink := t[d].nlink - 1)
    && (forall j :: 0 <= j < |t| && j != d && j != i ==> u[j] == t[j])
    && t[i].kind == Dir && u[i] == t[i].(nlink := t[i].nlink - 1)
  }

  /** Nothing but "." and "..". */
  ghost predicate Empty(t: Table, i: nat) {
    forall j: nat :: j >= 2 ==> At(t, i, j).inum == 0
  }

  /** An empty directory other than the root has a single link: its name in its parent. */
  lemma EmptyLinks(t: Table, d: nat, k: nat, i: nat)
    requires Dirs(t) && OneParent(t) && Linked(t, d) && k >= 2 && Names(t, i, d, k) && IsDir(t, i) && Empty(t, i)
      && i != 0
    ensures Links(t, i) == {(d, k)} && Parent(t, i) == d && i != ROOTINO
    ensures forall x: nat {:trigger Parent(t, x)} :: Linked(t, x) ==> Parent(t, x) != i
  {
    forall x: nat | Linked(t, x)
      ensures Parent(t, x) != i
    {
      if x != ROOTINO {
        assert HasHome(t, x);
        var j: nat :| j >= 2 && Names(t, x, Parent(t, x), j);
        DirNotZero(t);
      }
    }
    LinksAre(t, i);
    forall p: (nat, nat) | Names(t, i, p.0, p.1)
      ensures p == (d, k)
    {
      assert At(t, p.0, 0) == Dirent(p.0, ".");
      assert p.1 == 1 ==> Parent(t, p.0) == i;
      assert p.1 >= 2 ==> Parent(t, i) == p.0;
    }
  }

  /** The parent keeps a link when the child's ".." goes. */
  lemma ParentStays(t: Table, d: nat, i: nat)
    requires Dirs(t) && OneParent(t) && Counts(t) && Linked(t, d) && Linked(t, i) && Parent(t, i) == d && i != d
      && d != 0 && i != ROOTINO
    requires d < |t|
    ensures t[d].nlink >= 2 && (i, 1) in Links(t, d)
  {
    LinksAre(t, d);
    assert At(t, i, 1).name == "..";
    assert (i, 1) in Links(t, d);
    if d == ROOTINO {
      assert Parent(t, d) == d && At(t, d, 1).name == "..";
      assert (d, 1) in Links(t, d);
      assert {(i, 1), (d, 1)} <= Links(t, d);
      Two((i, 1), (d, 1), Links(t, d));
    } else {
      assert HasHome(t, d);
      var j: nat :| j >= 2 && Names(t, d, Parent(t, d), j);
      assert (Parent(t, d), j) in Links(t, d);
      Two((i, 1), (Parent(t, d), j), Links(t, d));
    }
  }

  lemma Two<T>(x: T, y: T, s: set<T>)
    requires x in s && y in s && x != y
    ensures |s| >= 2
  {
    assert |s - {x} - {y}| == |s| - 2;
  }

  lemma UnmadeShape(t: Table, u: Table, d: nat, k: nat, i: nat)
    requires Unmade(t, u, d, k, i) && Linked(t, d) && t[d].nlink >= 2 && t[i].nlink == 1
    ensures |u| == |t|
    ensures forall x: nat, j: nat :: At(u, x, j) == if x == d && j == k then Dirent(0, "") else At(t, x, j)
    ensures forall x: nat :: Linked(u, x) <==> Linked(t, x) && x != i
    ensures forall x: nat :: IsDir(u, x) <==> IsDir(t, x)
    ensures forall x: nat :: InUse(u, x) <==> InUse(t, x)
    ensures k >= 2 ==> forall x: nat :: Parent(u, x) == Parent(t, x)
    ensures i != 0 && IsDir(t, i) && Linked(t, i) && At(t, d, k).inum == i && i != d
    ensures forall y: nat, x: nat, j: nat :: y != 0 ==>
      (Names(u, y, x, j) <==> Names(t, y, x, j) && !(x == d && j == k) && x != i)
  {
  }

  lemma UnmadeDirs(t: Table, u: Table, d: nat, k: nat, i: nat)
    requires Dirs(t) && Linked(t, d) && k >= 2 && Unmade(t, u, d, k, i) && t[d].nlink >= 2 && t[i].nlink == 1
    requires forall x: nat {:trigger Parent(t, x)} :: Linked(t, x) ==> Parent(t, x) != i
    ensures Dirs(u)
  {
    hide At, Linked, IsDir, InUse, Unmade, Parent;
    UnmadeShape(t, u, d, k, i);
  }

  lemma UnmadeParents(t: Table, u: Table, d: nat, k: nat, i: nat)
    requires Dirs(t) && OneParent(t) && Linked(t, d) && k >= 2 && Unmade(t, u, d, k, i) && t[d].nlink >= 2
      && t[i].nlink == 1
    requires forall x: nat {:trigger Parent(t, x)} :: Linked(t, x) ==> Parent(t, x) != i
    requires i != ROOTINO
    ensures OneParent(u)
  {
    hide At, Linked, IsDir, InUse, Unmade, Parent, Dirs, Names;
    UnmadeShape(t, u, d, k, i);
    DirNotZero(t);
    NamedSlot(t, d, k);
    forall x: nat | Linked(u, x) && x != ROOTINO
      ensures HasHome(u, x)
    {
      assert HasHome(t, x);
      var j: nat :| j >= 2 && Names(t, x, Parent(t, x), j);
      if Parent(t, x) == d && j == k {
        SlotNamesOne(t, d, k, x, i);
      }
      assert Names(u, x, Parent(u, x), j);
    }
  }

  lemma UnmadeAgrees(t: Table, u: Table, d: nat, k: nat, i: nat)
    requires Agree(t) && Linked(t, d) && k >= 2 && Unmade(t, u, d, k, i) && Empty(t, i)
    ensures Agree(u) && u[i].nlink == 0
  {
    hide At, Linked, IsDir, InUse, Dirs, OneParent, Links, Names, Parent, Empty;
    UnmadeStart(t, u, d, k, i);
    EmptyLinks(t, d, k, i);
    ParentStays(t, d, i);
    UnmadeShape(t, u, d, k, i);
    UnmadeDirs(t, u, d, k, i);
    UnmadeParents(t, u, d, k, i);
    UnmadeHollow(t, u, d, k, i);
    forall x: nat | 0 < x < |t|
      ensures u[x].nlink == |Links(u, x)| <= SHORT_MAX
    {
      LinksAre(t, x);
      LinksAre(u, x);
      EmptyNames(t, i);
      assert Links(u, x) == Links(t, x) - {(d, k), (i, 1)};
      if x != i && (d, k) in Links(t, x) {
        SlotNamesOne(t, d, k, x, i);
      }
      if (i, 1) in Links(t, x) {
        ParentIs(t, i, x);
      }
    }
  }

  /** An empty directory removed loses its name, and its parent the name "..". */
  lemma UnmadeLinks(t: Table, u: Table, d: nat, k: nat, i: nat, x: nat)
    requires Agree(t) && Linked(t, d) && k >= 2 && Unmade(t, u, d, k, i) && Empty(t, i) && 0 < x < |t|
    ensures Links(u, x) ==
            if x == i then Links(t, i) - {(d, k)} else if x == d then Links(t, d) - {(i, 1)} else Links(t, x)
  {
    hide At, Linked, IsDir, InUse, Dirs, OneParent, Links, Names, Parent, Empty;
    UnmadeStart(t, u, d, k, i);
    EmptyLinks(t, d, k, i);
    ParentStays(t, d, i);
    UnmadeShape(t, u, d, k, i);
    LinksAre(t, x);
    LinksAre(u, x);
    EmptyNames(t, i);
    assert Links(u, x) == Links(t, x) - {(d, k), (i, 1)};
    if x != i {
      OtherSlot(t, d, k, i, x);
    }
    if (i, 1) in Links(t, x) {
      ParentIs(t, i, x);
    }
  }

  lemma UnmadeStart(t: Table, u: Table, d: nat, k: nat, i: nat)
    requires Agree(t) && Linked(t, d) && k >= 2 && Unmade(t, u, d, k, i)
    ensures Names(t, i, d, k) && IsDir(t, i) && Linked(t, i) && d != 0 && t[d].kind == Dir
  {
    NamedSlot(t, d, k);
    NoLinks(t, i);
  }

  lemma EmptyNames(t: Table, i: nat)
    requires Dirs(t) && Linked(t, i) && Empty(t, i)
    ensures forall y: nat, j: nat :: y != 0 && Names(t, y, i, j) ==> j == 1
  {
    assert At(t, i, 0) == Dirent(i, ".");
  }

  lemma ParentIs(t: Table, i: nat, x: nat)
    requires Names(t, x, i, 1)
    ensures Parent(t, i) == x
  {
  }

  lemma InUseInTable(t: Table, i: nat)
    ensures InUse(t, i) ==> i < |t|
  {
  }

  /** The directory that loses its name has only "." and "..". */
  lemma UnmadeHollow(t: Table, u: Table, d: nat, k: nat, i: nat)
    requires Dirs(t) && Hollow(t) && Linked(t, d) && k >= 2 && Unmade(t, u, d, k, i) && Empty(t, i)
    requires t[d].nlink >= 2 && t[i].nlink == 1
    ensures Hollow(u)
  {
    hide At, Linked, IsDir, InUse, Unmade, Parent, Names;
    UnmadeShape(t, u, d, k, i);
    forall x: nat, j: nat | IsDir(u, x) && !Linked(u, x) && At(u, x, j).inum != 0
      ensures At(u, x, j).inum < |u| && (At(u, x, j).name == "." || At(u, x, j).name == "..")
    {
      if x == i {
        assert At(t, i, 0) == Dirent(i, ".") && At(t, i, 1).name == "..";
        assert j >= 2 ==> At(t, i, j).inum == 0;
        InUseInTable(t, At(t, i, j).inum);
      }
    }
  }

  // ----- an inode freed -----

  /** `u` is `t` with inode `i`, which has no links, free. */
  ghost predicate Freed(t: Table, u: Table, i: nat) {
    && |u| == |t| && 0 < i < |t| && t[i].nlink == 0
    && (forall j :: 0 <= j < |t| && j != i ==> u[j] == t[j])
    && u[i].kind == Free && u[i].nlink == 0
  }

  lemma FreedShape(t: Table, u: Table, i: nat)
    requires Freed(t, u, i)
    ensures i != 0 && !Linked(t, i)
    ensures forall x: nat, j: nat :: x != i ==> At(u, x, j) == At(t, x, j)
    ensures forall x: nat :: Linked(u, x) <==> Linked(t, x)
    ensures forall x: nat :: IsDir(u, x) <==> IsDir(t, x) && x != i
    ensures forall x: nat :: InUse(u, x) <==> InUse(t, x) && x != i
    ensures forall x: nat :: x != i ==> Parent(u, x) == Parent(t, x)
    ensures forall y: nat, x: nat, j: nat :: Names(u, y, x, j) <==> Names(t, y, x, j)
  {
  }

  lemma FreedLinks(t: Table, u: Table, i: nat, x: nat)
    requires Freed(t, u, i) && x != 0
    ensures Links(u, x) == Links(t, x)
  {
    hide At, Linked, IsDir, InUse, Links, Names, Freed;
    FreedShape(t, u, i);
    LinksAre(t, x);
    LinksAre(u, x);
  }

  lemma FreedDirs(t: Table, u: Table, i: nat)
    requires Dirs(t) && Freed(t, u, i) && forall x: nat, j: nat :: !Names(t, i, x, j)
    ensures Dirs(u)
  {
    hide At, Linked, IsDir, InUse, Freed, Parent, Names;
    FreedShape(t, u, i);
    forall x: nat, j: nat | Linked(t, x) && At(t, x, j).inum == i
      ensures false
    {
      if j >= 1 {
        NamedSlot(t, x, j);
      }
    }
    forall x: nat | Linked(t, x)
      ensures At(t, x, 1).inum != i
    {
    }
  }

  lemma FreedParents(t: Table, u: Table, i: nat)
    requires Dirs(t) && OneParent(t) && Freed(t, u, i)
    ensures OneParent(u)
  {
    hide At, Linked, IsDir, InUse, Freed, Parent, Names, Dirs;
    FreedShape(t, u, i);
    forall x: nat | Linked(u, x) && x != ROOTINO
      ensures HasHome(u, x)
    {
      assert HasHome(t, x);
      var j: nat :| j >= 2 && Names(t, x, Parent(t, x), j);
      assert Names(u, x, Parent(u, x), j);
    }
  }

  /** What iput frees nothing names, and freeing it keeps the counts right. */
  lemma FreedAgrees(t: Table, u: Table, i: nat)
    requires Agree(t) && Freed(t, u, i)
    ensures Agree(u) && forall d: nat, k: nat :: !Names(t, i, d, k)
  {
    hide At, Linked, IsDir, InUse, Dirs, OneParent, Links, Names, Parent;
    NoLinks(t, i);
    FreedShape(t, u, i);
    FreedDirs(t, u, i);
    FreedParents(t, u, i);
    forall x: nat | 0 < x < |t|
      ensures u[x].nlink == |Links(u, x)| <= SHORT_MAX
    {
      LinksAre(t, x);
      LinksAre(u, x);
      assert Links(u, x) == Links(t, x);
    }
  }
}
